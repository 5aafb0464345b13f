/** The frozen-hash manifests: a list of file rows that must be closed over a pin table. */
module ClosedManifest {
  import opened Sequences
  import opened Utf8

  datatype Row = Row(path: string, sha: string, size: int)

  datatype Manifest = Manifest(schema: string, scope: string, files: seq<Row>)

  datatype Reason = Mismatch | Incomplete | WrongPin | UnsafeSource | SourceDrift | SizeDrift

  function PathOf(): Row -> string { (r: Row) => r.path }

  /** What a row claims about its path. */
  function ClaimOf(): Row -> (string, string) { (r: Row) => (r.path, r.sha) }

  /** The file the row names is there, with the claimed digest and size. Files
      holds the regular files inside the repository. */
  predicate Current(files: map<string, seq<Byte>>, sha: seq<Byte> -> string, r: Row) {
    r.path in files && sha(files[r.path]) == r.sha && |files[r.path]| == r.size
  }

  /** The rows are the pin table in some order, and every row is current. */
  ghost predicate ClosedOver(pins: map<string, string>, files: map<string, seq<Byte>>, sha: seq<Byte> -> string, rows: seq<Row>) {
    && multiset(Map(ClaimOf(), rows)) == multiset(pins.Items)
    && (forall r | r in rows :: Current(files, sha, r))
  }

  /** Distinct elements of a set, as many as the set has, are all of it. */
  lemma Pigeonhole<T>(s: seq<T>, all: set<T>)
    requires Distinct(s) && (forall x | x in s :: x in all) && |s| == |all|
    ensures (set x | x in s) == all
  {
    DistinctCardinality(s);
    var listed := set x | x in s;
    assert listed <= all;
    var missing := all - listed;
    assert listed + missing == all && |missing| == |all| - |listed|;
  }

  lemma {:induction false} CountBelowOne<T>(s: seq<T>, x: T)
    requires Distinct(s)
    ensures multiset(s)[x] == if x in s then 1 else 0
  {
    DistinctCounts(s);
  }

  /** Rows with distinct pinned paths, as many as there are pins, with the pinned
      digests, are the pin table up to order. */
  lemma ClaimsArePins(pins: map<string, string>, rows: seq<Row>)
    requires Distinct(Map(PathOf(), rows)) && |rows| == |pins|
    requires forall r | r in rows :: r.path in pins && r.sha == pins[r.path]
    ensures multiset(Map(ClaimOf(), rows)) == multiset(pins.Items)
  {
    var paths, claims := Map(PathOf(), rows), Map(ClaimOf(), rows);
    assert forall i | 0 <= i < |rows| :: rows[i] in rows && paths[i] == rows[i].path && claims[i] == (paths[i], rows[i].sha);
    Pigeonhole(paths, pins.Keys);
    assert Distinct(claims);
    forall claim ensures multiset(claims)[claim] == multiset(pins.Items)[claim] {
      CountBelowOne(claims, claim);
      if claim in pins.Items {
        assert claim.0 in set p | p in paths;
        var i :| 0 <= i < |paths| && paths[i] == claim.0;
        assert claims[i] == claim;
      }
    }
  }

  /** Conversely, a reordered pin table repeats no path and leaves none out. */
  lemma PinsAreClaims(pins: map<string, string>, rows: seq<Row>)
    requires multiset(Map(ClaimOf(), rows)) == multiset(pins.Items)
    ensures Distinct(Map(PathOf(), rows)) && |rows| == |pins|
    ensures forall r | r in rows :: r.path in pins && r.sha == pins[r.path]
  {
    var paths, claims := Map(PathOf(), rows), Map(ClaimOf(), rows);
    assert |multiset(claims)| == |claims| && |multiset(pins.Items)| == |pins.Items|;
    ItemsCardinality(pins);
    forall i | 0 <= i < |rows| ensures claims[i] in pins.Items {
      assert claims[i] in multiset(claims);
    }
    forall r | r in rows ensures r.path in pins && r.sha == pins[r.path] {
      var i :| 0 <= i < |rows| && rows[i] == r;
      assert claims[i] == (r.path, r.sha);
    }
    forall c | c in claims ensures multiset(claims)[c] == 1 { assert c in multiset(claims); }
    DistinctCounts(claims);
    forall i, j | 0 <= i < j < |rows| ensures paths[i] != paths[j] {
      assert claims[i] != claims[j] && rows[i] in rows && rows[j] in rows;
    }
  }

  lemma {:induction false} ItemsCardinality(pins: map<string, string>)
    ensures |pins.Items| == |pins|
    decreases |pins|
  {
    if pins == map[] {
      assert pins.Items == {};
    } else {
      var path :| path in pins;
      var rest := pins - {path};
      ItemsCardinality(rest);
      forall item ensures item in pins.Items <==> item in rest.Items + {(path, pins[path])} {
        assert item in pins.Items <==> item.0 in pins && pins[item.0] == item.1;
        assert item in rest.Items <==> item.0 in rest && rest[item.0] == item.1;
      }
      assert pins.Items == rest.Items + {(path, pins[path])};
      assert pins.Keys == rest.Keys + {path};
    }
  }

  /** One row against its pin and its file. */
  method CheckRow(row: Row, expected: string, files: map<string, seq<Byte>>, sha: seq<Byte> -> string)
    returns (r: Option<Reason>)
    ensures r.None? <==> Current(files, sha, row) && row.sha == expected
    ensures r.Some? ==> r.value in {UnsafeSource, SourceDrift, SizeDrift}
  {
    if row.path !in files { return Some(UnsafeSource); }
    if row.sha != expected || sha(files[row.path]) != expected { return Some(SourceDrift); }
    if row.size != |files[row.path]| { return Some(SizeDrift); }
    return None;
  }

  /** A row that passed. */
  predicate RowFits(pins: map<string, string>, files: map<string, seq<Byte>>, sha: seq<Byte> -> string, r: Row) {
    r.path in pins && r.sha == pins[r.path] && Current(files, sha, r)
  }

  /** What the loop below looks for. */
  ghost predicate RowsFit(pins: map<string, string>, files: map<string, seq<Byte>>, sha: seq<Byte> -> string, rows: seq<Row>) {
    |rows| == |pins| && Distinct(Map(PathOf(), rows)) && forall i | 0 <= i < |rows| :: RowFits(pins, files, sha, rows[i])
  }

  lemma ClosedIff(pins: map<string, string>, files: map<string, seq<Byte>>, sha: seq<Byte> -> string, rows: seq<Row>)
    ensures ClosedOver(pins, files, sha, rows) <==> RowsFit(pins, files, sha, rows)
  {
    if ClosedOver(pins, files, sha, rows) {
      PinsAreClaims(pins, rows);
      forall i | 0 <= i < |rows| ensures RowFits(pins, files, sha, rows[i]) { assert rows[i] in rows; }
    }
    if RowsFit(pins, files, sha, rows) { ClaimsArePins(pins, rows); }
  }

  /** Goes through the rows; the paths they name. */
  method CheckRows(pins: map<string, string>, files: map<string, seq<Byte>>, sha: seq<Byte> -> string, rows: seq<Row>)
    returns (r: Result<set<string>, Reason>)
    ensures r.Ok? <==> Distinct(Map(PathOf(), rows)) && forall i | 0 <= i < |rows| :: RowFits(pins, files, sha, rows[i])
    ensures r.Ok? ==> r.value == set p | p in Map(PathOf(), rows)
    ensures r.Err? ==> r.error in {WrongPin, UnsafeSource, SourceDrift, SizeDrift}
    ensures r.Err? && r.error == WrongPin ==>
              !Distinct(Map(PathOf(), rows)) || exists row :: row in rows && row.path !in pins
    ensures r.Err? && r.error != WrongPin ==>
              exists row :: row in rows && row.path in pins && !(Current(files, sha, row) && row.sha == pins[row.path])
  {
    var seen: set<string> := {};
    ghost var paths := Map(PathOf(), rows);
    for i := 0 to |rows|
      invariant seen == (set p | p in paths[..i]) && Distinct(paths[..i])
      invariant forall k | 0 <= k < i :: RowFits(pins, files, sha, rows[k])
    {
      var row := rows[i];
      PrefixStep(paths, i);
      assert row in rows && paths[i] == row.path;
      if row.path in seen || row.path !in pins {
        if row.path in seen { RepeatedAt(paths, i); }
        return Err(WrongPin);
      }
      DistinctAppend(paths[..i], row.path);
      seen := seen + {row.path};
      var drift := CheckRow(row, pins[row.path], files, sha);
      if drift.Some? { return Err(drift.value); }
    }
    assert paths[..|rows|] == paths;
    return Ok(seen);
  }

  method CheckClosed(
    m: Manifest, schema: string, scope: string, pins: map<string, string>,
    files: map<string, seq<Byte>>, sha: seq<Byte> -> string) returns (r: Result<set<string>, Reason>)
    ensures r.Ok? <==> m.schema == schema && m.scope == scope && ClosedOver(pins, files, sha, m.files)
    ensures r.Ok? ==> r.value == pins.Keys
    // only the length test reports an incomplete set; the final comparison never fails
    ensures r.Err? && r.error == Incomplete ==> |m.files| != |pins|
    ensures r.Err? && r.error == WrongPin ==>
              !Distinct(Map(PathOf(), m.files)) || exists row :: row in m.files && row.path !in pins
    ensures r.Err? && r.error in {UnsafeSource, SourceDrift, SizeDrift} ==>
              exists row :: row in m.files && row.path in pins && !(Current(files, sha, row) && row.sha == pins[row.path])
  {
    if m.schema != schema || m.scope != scope { return Err(Mismatch); }
    ClosedIff(pins, files, sha, m.files);
    if |m.files| != |pins| { return Err(Incomplete); }
    var seen := CheckRows(pins, files, sha, m.files);
    if seen.Err? { return seen; }
    AllPinned(pins, files, sha, m.files);
    return if seen.value != pins.Keys then Err(Incomplete) else Ok(seen.value);
  }

  lemma AllPinned(pins: map<string, string>, files: map<string, seq<Byte>>, sha: seq<Byte> -> string, rows: seq<Row>)
    requires RowsFit(pins, files, sha, rows)
    ensures (set p | p in Map(PathOf(), rows)) == pins.Keys
  {
    Pigeonhole(Map(PathOf(), rows), pins.Keys);
  }

  /** The verdict does not depend on the order of the rows. */
  lemma ClosedIgnoresOrder(
    pins: map<string, string>, files: map<string, seq<Byte>>, sha: seq<Byte> -> string, rows: seq<Row>, other: seq<Row>)
    requires multiset(rows) == multiset(other)
    ensures ClosedOver(pins, files, sha, rows) <==> ClosedOver(pins, files, sha, other)
  {
    MapMultiset(ClaimOf(), rows, other);
    assert forall r :: r in rows <==> r in multiset(rows);
    assert forall r :: r in other <==> r in multiset(other);
  }

  /** A closed manifest vouches for its files: a pinned file can only be replaced by one of the same
      digest and size, and not be missing; any other file is of no account. */
  lemma ClosedVouches(
    pins: map<string, string>, files: map<string, seq<Byte>>, sha: seq<Byte> -> string, rows: seq<Row>, path: string, content: seq<Byte>)
    requires ClosedOver(pins, files, sha, rows)
    ensures path in pins ==> path in files
    ensures ClosedOver(pins, files[path := content], sha, rows) <==>
            (path in pins ==> sha(content) == pins[path] && |content| == |files[path]|)
    ensures path in pins ==> sha(files[path]) == pins[path]
    ensures ClosedOver(pins, files - {path}, sha, rows) <==> path !in pins
  {
    PinsAreClaims(pins, rows);
    if path in pins {
      var r := RowOfPin(pins, rows, path);
      assert Current(files, sha, r);
      assert Current(files[path := content], sha, r) <==> sha(content) == pins[path] && |content| == |files[path]|;
      assert !Current(files - {path}, sha, r);
    }
    forall r | r in rows && r.path != path
      ensures Current(files[path := content], sha, r) && Current(files - {path}, sha, r)
    {
      assert Current(files, sha, r);
    }
    forall r | r in rows && r.path == path
      ensures path in pins && r.sha == pins[path] && |files[path]| == r.size
    {
      assert Current(files, sha, r);
    }
  }

  lemma RowOfPin(pins: map<string, string>, rows: seq<Row>, path: string) returns (r: Row)
    requires multiset(Map(ClaimOf(), rows)) == multiset(pins.Items) && path in pins
    ensures r in rows && r.path == path && r.sha == pins[path]
  {
    var claims := Map(ClaimOf(), rows);
    assert (path, pins[path]) in multiset(pins.Items) && (path, pins[path]) in multiset(claims);
    var i :| 0 <= i < |claims| && claims[i] == (path, pins[path]);
    r := rows[i];
  }
}
