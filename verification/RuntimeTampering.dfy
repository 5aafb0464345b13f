/** What a valid store vouches for: which changes to a valid directory leave it valid. */
module RuntimeTampering {
  import opened RuntimeStore

  function ManifestIn(t: Tools, dir: map<string, Node>, pin: Pin): Manifest
    requires ValidDir(t, dir, pin)
  {
    t.parse(dir[ManifestName].bytes).value
  }

  lemma ReservedNames(t: Tools, dir: map<string, Node>, pin: Pin)
    requires ValidDir(t, dir, pin)
    ensures ManifestName !in ManifestIn(t, dir, pin).files && CacheName !in ManifestIn(t, dir, pin).files
    ensures ManifestName != CacheName
  {
    assert !EndsWith(ManifestName, ".py") && !EndsWith(CacheName, ".py");
    var m := ManifestIn(t, dir, pin);
    assert forall name | name in m.files :: FileOk(t, dir, m, name);
    assert |ManifestName| != |CacheName|;
  }

  /** The node is a file with the same digest as the other one. */
  predicate SameFile(t: Tools, a: Node, b: Node) {
    a.Regular? && b.Regular? && t.hash(a.bytes) == t.hash(b.bytes)
  }

  /** A file of the store can be replaced by another only if the digest does not tell them apart;
      a link or a directory in its place is always noticed. */
  lemma ChangedFile(t: Tools, dir: map<string, Node>, pin: Pin, name: string, node: Node)
    requires ValidDir(t, dir, pin) && name in dir && name != ManifestName && name != CacheName
    ensures ValidDir(t, dir[name := node], pin) <==> SameFile(t, dir[name], node)
  {
    var m, changed := ManifestIn(t, dir, pin), dir[name := node];
    ReservedNames(t, dir, pin);
    assert name in dir.Keys - {CacheName};
    assert FileOk(t, dir, m, name);
    assert changed.Keys == dir.Keys;
    if SameFile(t, dir[name], node) {
      forall other | other in m.files ensures FileOk(t, changed, m, other) { assert FileOk(t, dir, m, other); }
    } else {
      assert !FileOk(t, changed, m, name);
    }
  }

  /** Anything added but a cache directory is noticed, */
  lemma ExtraEntry(t: Tools, dir: map<string, Node>, pin: Pin, name: string, node: Node)
    requires ValidDir(t, dir, pin) && name !in dir && name != CacheName
    ensures !ValidDir(t, dir[name := node], pin)
  {
    var m := ManifestIn(t, dir, pin);
    assert name != ManifestName;
    assert name in dir[name := node].Keys - {CacheName} && name !in dir.Keys - {CacheName};
  }

  /** anything missing but the cache directory is, */
  lemma MissingEntry(t: Tools, dir: map<string, Node>, pin: Pin, name: string)
    requires ValidDir(t, dir, pin) && name in dir && name != CacheName
    ensures !ValidDir(t, dir - {name}, pin)
  {
    var m := ManifestIn(t, dir, pin);
    assert name in dir.Keys - {CacheName} && name !in (dir - {name}).Keys;
    if name != ManifestName { assert name in m.files.Keys + {ManifestName}; }
  }

  /** and the cache directory itself may come, go and change as long as it holds nothing but
      regular files with the suffix of compiled code. */
  lemma ChangedCaches(t: Tools, dir: map<string, Node>, pin: Pin, node: Node)
    requires ValidDir(t, dir, pin)
    ensures ValidDir(t, dir - {CacheName}, pin)
    ensures ValidDir(t, dir[CacheName := node], pin) <==>
            node.Folder? && forall child | child in node.children :: CompiledName(child) && node.children[child].RegularLeaf?
  {
    var m, without, changed := ManifestIn(t, dir, pin), dir - {CacheName}, dir[CacheName := node];
    ReservedNames(t, dir, pin);
    forall name | name in m.files ensures FileOk(t, without, m, name) && FileOk(t, changed, m, name) {
      assert FileOk(t, dir, m, name);
    }
    assert without.Keys - {CacheName} == dir.Keys - {CacheName} == changed.Keys - {CacheName};
  }

  /** No other manifest has the digest of this one. */
  ghost predicate DigestTells(t: Tools, m: Manifest) { forall k :: t.digest(k) == t.digest(m) ==> k == m }

  /** The manifest file may be written another way, but not say anything else. */
  lemma ChangedManifest(t: Tools, dir: map<string, Node>, pin: Pin, node: Node)
    requires ValidDir(t, dir, pin) && DigestTells(t, ManifestIn(t, dir, pin))
    ensures ValidDir(t, dir[ManifestName := node], pin) <==>
            node.Regular? && t.parse(node.bytes).Some? && t.parse(node.bytes).value == ManifestIn(t, dir, pin)
  {
    var m, changed := ManifestIn(t, dir, pin), dir[ManifestName := node];
    ReservedNames(t, dir, pin);
    assert changed.Keys == dir.Keys;
    assert CacheFits(changed) <==> CacheFits(dir);
    if node.Regular? && t.parse(node.bytes).Some? && t.parse(node.bytes).value == m {
      forall name | name in m.files ensures FileOk(t, changed, m, name) { assert FileOk(t, dir, m, name); }
    }
  }

  /** Two valid stores of one pin hold the same files up to their digests, caches apart. */
  lemma ValidStoresAgree(t: Tools, dir: map<string, Node>, other: map<string, Node>, pin: Pin)
    requires ValidDir(t, dir, pin) && ValidDir(t, other, pin) && DigestTells(t, ManifestIn(t, dir, pin))
    ensures dir.Keys - {CacheName} == other.Keys - {CacheName}
    ensures forall name | name in dir && name != CacheName && name != ManifestName ::
              name in other && SameFile(t, dir[name], other[name])
  {
    var m := ManifestIn(t, dir, pin);
    assert t.digest(ManifestIn(t, other, pin)) == pin.digest == t.digest(m);
    forall name | name in dir && name != CacheName && name != ManifestName
      ensures name in other && SameFile(t, dir[name], other[name])
    {
      assert name in dir.Keys - {CacheName};
      assert FileOk(t, dir, m, name) && FileOk(t, other, m, name);
    }
  }

  /** A store is valid for no pin but its own, and always holds the pipeline state. */
  lemma ChangedPin(t: Tools, dir: map<string, Node>, pin: Pin, version: string, digest: string)
    requires ValidDir(t, dir, pin)
    ensures ValidDir(t, dir, pin.(version := version)) <==> version == pin.version
    ensures ValidDir(t, dir, pin.(digest := digest)) <==> digest == pin.digest
    ensures pin == PinOf(t, ManifestIn(t, dir, pin)).(schema := pin.schema)
    ensures "pipeline_state.py" in dir && dir["pipeline_state.py"].Regular?
  {
    assert FileOk(t, dir, ManifestIn(t, dir, pin), "pipeline_state.py");
  }
}
