/** How the raw configuration is put together (`loadRawConfig` in `config/disk.go`): files, the
    kernel command line, the command line elided in a file, debug flags and metadata. */
module Layers {
  import opened Tree
  import opened Cmdline
  import opened Text
  import opened Wrappers

  /** The boolean `true`, a scalar that is not a string. */
  const TRUE := Leaf(Other(1))

  /** The metadata of a datasource, as far as it is merged. */
  datatype Metadata = Metadata(hostname: string, sshPublicKeys: map<string, string>, rootDisk: string)

  /** What comes from outside: the decoding of scalars, the undoing of kernel quoting, and whether
      a configuration, once converted, asks for debugging. */
  datatype Outside = Outside(decode: string -> Tree, unescape: string -> string, debugs: Dict -> bool)

  // ---------- The steps ----------

  const EXTRA: Scalar := Str("EXTRA_CMDLINE")

  /** The command line in a configuration, parsed. */
  function Elided(o: Outside, cfg: Dict): Dict {
    if EXTRA in cfg && cfg[EXTRA].Leaf? && cfg[EXTRA].v.Str?
    then Assigned(o.decode, Fields(o.unescape(cfg[EXTRA].v.s), NOTHING, ""), false)
    else map[]
  }

  /** What an `EXTRA_CMDLINE` entry gives: what its words set, for keys of this program, and nothing
      when there is no such text. */
  lemma ElidedGives(o: Outside, cfg: Dict)
    ensures var key := Str("EXTRA_CMDLINE");
      if key in cfg && cfg[key].Leaf? && cfg[key].v.Str?
      then Gives(o.decode, Fields(o.unescape(cfg[key].v.s), NOTHING, ""), false, Elided(o, cfg))
      else Elided(o, cfg) == map[]
  {
    hide Gives, Assigned, Fields;
    var key := Str("EXTRA_CMDLINE");
    if key in cfg && cfg[key].Leaf? && cfg[key].v.Str? {
      AssignedGives(o.decode, Fields(o.unescape(cfg[key].v.s), NOTHING, ""), false);
    }
  }

  const DEBUG_KEYS := ["rancher.docker.debug", "rancher.system_docker.debug", "rancher.bootstrap_docker.debug", "rancher.log"]

  function SetEach(o: Outside, cfg: Dict, keys: seq<string>): Dict
    decreases |keys|
  {
    if keys == [] then cfg else SetEach(o, GetOrSetVal(o.decode, keys[0], cfg, Some(TRUE)).1, keys[1..])
  }

  function WithDebug(o: Outside, cfg: Dict): Dict {
    if o.debugs(cfg) then SetEach(o, cfg, DEBUG_KEYS) else cfg
  }

  /** Each of the flags is set, unless something that is not a map stands in its way. */
  ghost predicate FlagsSet(before: Dict, after: Dict) {
    forall key <- DEBUG_KEYS ::
      Find(after, Split(key, '.')) == if Blocked(before, Split(key, '.')) then None else Some(TRUE)
  }

  method ApplyDebugFlags(o: Outside, rawCfg: Dict) returns (r: Dict)
    ensures r == WithDebug(o, rawCfg)
    ensures if o.debugs(rawCfg) then FlagsSet(rawCfg, r) else r == rawCfg
  {
    hide FlagsSet;
    DebugFlagsSet(o, rawCfg);
    r := rawCfg;
    if !o.debugs(rawCfg) {
      return;
    }
    r := GetOrSetVal(o.decode, "rancher.docker.debug", r, Some(TRUE)).1;
    r := GetOrSetVal(o.decode, "rancher.system_docker.debug", r, Some(TRUE)).1;
    r := GetOrSetVal(o.decode, "rancher.bootstrap_docker.debug", r, Some(TRUE)).1;
    r := GetOrSetVal(o.decode, "rancher.log", r, Some(TRUE)).1;
  }

  lemma {:induction false} SetEachElsewhere(o: Outside, cfg: Dict, keys: seq<string>, parts: seq<string>)
    requires parts != [] && forall key <- keys :: Diverge(Split(key, '.'), parts)
    ensures Find(SetEach(o, cfg, keys), parts) == Find(cfg, parts)
    decreases |keys|
  {
    if keys != [] {
      assert keys[0] in keys && forall key <- keys[1..] :: key in keys;
      var first := Split(keys[0], '.');
      if SetVal(cfg, first, TRUE).Some? {
        SetElsewhere(cfg, first, TRUE, parts);
      }
      SetEachElsewhere(o, GetOrSetVal(o.decode, keys[0], cfg, Some(TRUE)).1, keys[1..], parts);
    }
  }

  ghost predicate AllDiverge(keys: seq<string>) {
    forall i, j :: 0 <= i < |keys| && 0 <= j < |keys| && i != j ==> Diverge(Split(keys[i], '.'), Split(keys[j], '.'))
  }

  lemma {:induction false} SetEachSets(o: Outside, cfg: Dict, keys: seq<string>, i: nat)
    requires i < |keys| && AllDiverge(keys)
    ensures var parts := Split(keys[i], '.');
      Find(SetEach(o, cfg, keys), parts) == if Blocked(cfg, parts) then None else Some(TRUE)
    decreases |keys|
  {
    var first, parts := Split(keys[0], '.'), Split(keys[i], '.');
    var next := GetOrSetVal(o.decode, keys[0], cfg, Some(TRUE)).1;
    SetUnlessBlocked(cfg, first, TRUE);
    if i == 0 {
      SetThenGet(cfg, first, TRUE);
      forall key <- keys[1..]
        ensures Diverge(Split(key, '.'), first)
      {
        var j :| 0 <= j < |keys[1..]| && keys[1..][j] == key;
        assert keys[1 + j] == key;
      }
      SetEachElsewhere(o, next, keys[1..], first);
    } else {
      if SetVal(cfg, first, TRUE).Some? {
        BlockedElsewhere(cfg, first, TRUE, parts);
      }
      assert AllDiverge(keys[1..]);
      SetEachSets(o, next, keys[1..], i - 1);
    }
  }

  /** The parts of the four keys. */
  lemma DebugParts()
    ensures Split(DEBUG_KEYS[0], '.') == ["rancher", "docker", "debug"]
    ensures Split(DEBUG_KEYS[1], '.') == ["rancher", "system_docker", "debug"]
    ensures Split(DEBUG_KEYS[2], '.') == ["rancher", "bootstrap_docker", "debug"]
    ensures Split(DEBUG_KEYS[3], '.') == ["rancher", "log"]
  {
    hide Split;
    DockerKeys();
    BootstrapDockerKey();
    LogKey();
  }

  lemma DockerKeys()
    ensures Split("rancher.docker.debug", '.') == ["rancher", "docker", "debug"]
    ensures Split("rancher.system_docker.debug", '.') == ["rancher", "system_docker", "debug"]
  {
    hide Split;
    ThreeParts("docker");
    assert "rancher.docker.debug" == "rancher." + "docker" + ".debug";
    ThreeParts("system_docker");
    assert "rancher.system_docker.debug" == "rancher." + "system_docker" + ".debug";
  }

  lemma BootstrapDockerKey()
    ensures Split("rancher.bootstrap_docker.debug", '.') == ["rancher", "bootstrap_docker", "debug"]
  {
    hide Split;
    ThreeParts("bootstrap_docker");
    assert "rancher.bootstrap_docker.debug" == "rancher." + "bootstrap_docker" + ".debug";
  }

  lemma LogKey()
    ensures Split("rancher.log", '.') == ["rancher", "log"]
  {
    hide Split;
    SplitJoin(["rancher", "log"], '.');
    assert ["rancher", "log"][1..] == ["log"];
    assert Join(["rancher", "log"], '.') == "rancher" + ['.'] + "log" == "rancher.log";
  }

  lemma ThreeParts(middle: string)
    requires '.' !in middle
    ensures Split("rancher." + middle + ".debug", '.') == ["rancher", middle, "debug"]
  {
    hide Split;
    var parts := ["rancher", middle, "debug"];
    assert parts[1..] == [middle, "debug"] && parts[1..][1..] == ["debug"];
    assert Join(parts[1..], '.') == middle + ['.'] + "debug";
    assert Join(parts, '.') == "rancher" + ['.'] + (middle + ['.'] + "debug");
    assert Join(parts, '.') == "rancher." + middle + ".debug";
    SplitJoin(parts, '.');
  }

  /** When debugging is on, exactly the flags that are not blocked are set. */
  lemma DebugFlagsSet(o: Outside, cfg: Dict)
    ensures o.debugs(cfg) ==> FlagsSet(cfg, WithDebug(o, cfg))
  {
    hide Split, SetEach;
    DebugParts();
    forall i, j | 0 <= i < |DEBUG_KEYS| && 0 <= j < |DEBUG_KEYS| && i != j
      ensures Diverge(Split(DEBUG_KEYS[i], '.'), Split(DEBUG_KEYS[j], '.'))
    {
      assert |Split(DEBUG_KEYS[i], '.')[1]| == [6, 13, 16, 3][i];
      assert |Split(DEBUG_KEYS[j], '.')[1]| == [6, 13, 16, 3][j];
      assert Split(DEBUG_KEYS[i], '.')[1] != Split(DEBUG_KEYS[j], '.')[1];
    }
    forall key <- DEBUG_KEYS | o.debugs(cfg)
      ensures Find(WithDebug(o, cfg), Split(key, '.')) == if Blocked(cfg, Split(key, '.')) then None else Some(TRUE)
    {
      var i :| 0 <= i < |DEBUG_KEYS| && DEBUG_KEYS[i] == key;
      SetEachSets(o, cfg, DEBUG_KEYS, i);
    }
  }

  const HOSTNAME: Scalar := Str("hostname")
  const SSH_KEYS: Scalar := Str("ssh_authorized_keys")
  const RANCHER: Scalar := Str("rancher")
  const RESIZE: Scalar := Str("resize_device")

  predicate NoHostname(cfg: Dict) {
    HOSTNAME !in cfg || cfg[HOSTNAME] == Leaf(Str(""))
  }

  function ItemsAt(cfg: Dict, k: Scalar): seq<Tree> {
    if k in cfg && cfg[k].List? then cfg[k].items else []
  }

  function Values(keys: seq<string>, vars: map<string, string>): (r: seq<Tree>)
    requires forall k <- keys :: k in vars
    ensures |r| == |keys|
  {
    seq(|keys|, i requires 0 <= i < |keys| => Leaf(Str(vars[keys[i]])))
  }

  predicate HasMap(cfg: Dict, k: Scalar) {
    k in cfg && cfg[k].Map?
  }

  /** `mergeMetadata`. There is no result when the code writes to a nil map. */
  function WithMetadata(cfg: Dict, md: Metadata, keys: seq<string>): Option<Dict>
    requires forall k <- keys :: k in md.sshPublicKeys
  {
    var named := if md.hostname != "" && NoHostname(cfg) then cfg[HOSTNAME := Leaf(Str(md.hostname))] else cfg;
    var out := named[SSH_KEYS := List(ItemsAt(cfg, SSH_KEYS) + Values(keys, md.sshPublicKeys))];
    if md.rootDisk == "" || (HasMap(cfg, RANCHER) && RESIZE in cfg[RANCHER].m) then Some(out)
    else if HasMap(cfg, RANCHER) then Some(out[RANCHER := Map(cfg[RANCHER].m[RESIZE := Leaf(Str(md.rootDisk))])])
    else None
  }

  /** The names of the SSH keys, sorted; there is one such list (`Text.SortedUnique`). */
  ghost predicate SortedNames(md: Metadata, keys: seq<string>) {
    Sorted(keys) && forall k :: k in keys <==> k in md.sshPublicKeys
  }

  method MergeMetadata(rawCfg: Dict, md: Metadata) returns (r: Option<Dict>)
    ensures exists keys :: SortedNames(md, keys) && r == WithMetadata(rawCfg, md, keys)
  {
    hide Sorted;
    var out := MapCopy(rawCfg);
    var outHostname := if HOSTNAME in out then out[HOSTNAME] else Leaf(Str(""));
    if md.hostname != "" {
      if outHostname != Leaf(Str("")) {
        // the user data overrides the metadata
      } else {
        out := out[HOSTNAME := Leaf(Str(md.hostname))];
      }
    }
    var sorted := SortedList(md.sshPublicKeys.Keys);
    assert SortedNames(md, sorted);
    var finalKeys := ItemsAt(out, SSH_KEYS);
    for i := 0 to |sorted|
      invariant finalKeys == ItemsAt(rawCfg, SSH_KEYS) + Values(sorted, md.sshPublicKeys)[..i]
    {
      finalKeys := finalKeys + [Leaf(Str(md.sshPublicKeys[sorted[i]]))];
    }
    assert Values(sorted, md.sshPublicKeys)[..|sorted|] == Values(sorted, md.sshPublicKeys);
    out := out[SSH_KEYS := List(finalKeys)];
    if md.rootDisk != "" && !(HasMap(out, RANCHER) && RESIZE in out[RANCHER].m) {
      if !HasMap(out, RANCHER) {
        return None;
      }
      out := out[RANCHER := Map(out[RANCHER].m[RESIZE := Leaf(Str(md.rootDisk))])];
    }
    r := Some(out);
  }

  /** The code fails exactly when there is a root disk to enter but no map to enter it in. */
  lemma MetadataFails(cfg: Dict, md: Metadata, keys: seq<string>)
    requires forall k <- keys :: k in md.sshPublicKeys
    ensures WithMetadata(cfg, md, keys).None? <==> md.rootDisk != "" && !HasMap(cfg, RANCHER)
  {
  }

  /** What metadata adds: a host name where there is none, and a device where there is none. */
  lemma MetadataFillsGaps(cfg: Dict, md: Metadata, keys: seq<string>, p: Path)
    requires (forall k <- keys :: k in md.sshPublicKeys) && WithMetadata(cfg, md, keys).Some?
    requires p != [] && p[0] != Str("ssh_authorized_keys")
    ensures var host, rancher, device := Str("hostname"), Str("rancher"), Str("resize_device");
      LeafAt(Map(WithMetadata(cfg, md, keys).value), p) ==
        if p == [host] && md.hostname != "" && (host !in cfg || cfg[host] == Leaf(Str(""))) then Some(Leaf(Str(md.hostname)))
        else if p == [rancher, device] && md.rootDisk != "" && rancher in cfg && cfg[rancher].Map? && device !in cfg[rancher].m
        then Some(Leaf(Str(md.rootDisk)))
        else LeafAt(Map(cfg), p)
  {
    var out, q := WithMetadata(cfg, md, keys).value, p[1..];
    assert p == [p[0]] + q;
    if p[0] == RANCHER {
      if q != [] && HasMap(cfg, RANCHER) {
        assert p == [RANCHER, q[0]] + q[1..];
        DeviceFillsGap(cfg[RANCHER].m, out[RANCHER].m, md.rootDisk, q);
      }
    } else if p[0] == HOSTNAME {
      assert NoHostname(cfg) && q != [] ==> LeafAt(Map(cfg), p) == None && LeafAt(Map(out), p) == None;
    }
  }

  lemma DeviceFillsGap(before: Dict, after: Dict, rootDisk: string, q: Path)
    requires q != []
    requires after == if rootDisk == "" || RESIZE in before then before else before[RESIZE := Leaf(Str(rootDisk))]
    ensures LeafAt(Map(after), q) ==
      if q == [RESIZE] && rootDisk != "" && RESIZE !in before then Some(Leaf(Str(rootDisk))) else LeafAt(Map(before), q)
  {
    assert q == [q[0]] + q[1..];
  }

  /** The listed SSH keys stay in front, followed by one per name in the metadata, in the order
      of the names. */
  lemma SshKeysGrow(cfg: Dict, md: Metadata, keys: seq<string>)
    requires SortedNames(md, keys) && WithMetadata(cfg, md, keys).Some?
    ensures var before, after := ItemsAt(cfg, SSH_KEYS), ItemsAt(WithMetadata(cfg, md, keys).value, SSH_KEYS);
      && |after| == |before| + |md.sshPublicKeys|
      && (forall i :: 0 <= i < |before| ==> after[i] == before[i])
      && (forall i :: 0 <= i < |keys| ==> |before| + i < |after| && after[|before| + i] == Leaf(Str(md.sshPublicKeys[keys[i]])))
  {
    hide WithMetadata, Sorted;
    SshItems(cfg, md, keys);
    SortedCount(keys, md.sshPublicKeys.Keys);
    assert |md.sshPublicKeys.Keys| == |md.sshPublicKeys|;
  }

  lemma SshItems(cfg: Dict, md: Metadata, keys: seq<string>)
    requires (forall k <- keys :: k in md.sshPublicKeys) && WithMetadata(cfg, md, keys).Some?
    ensures ItemsAt(WithMetadata(cfg, md, keys).value, SSH_KEYS) == ItemsAt(cfg, SSH_KEYS) + Values(keys, md.sshPublicKeys)
  {
    hide Values;
  }

  // ---------- The whole ----------

  function RawConfig(o: Outside, disk: Dict, procCmdline: Dict, md: Metadata, keys: seq<string>): Option<Dict>
    requires forall k <- keys :: k in md.sshPublicKeys
  {
    var cfg := Merge(disk, procCmdline);
    WithMetadata(WithDebug(o, Merge(cfg, Elided(o, cfg))), md, keys)
  }

  function OnDisk(full: bool, builtIn: seq<Source>, others: seq<Source>): seq<Dict> {
    (if full then Configs(builtIn) else []) + Configs(others)
  }

  /** `loadRawConfig`. When the configurations on disk agree on what is a map, the built-in ones
      are just further layers below the others. */
  method LoadRawConfig(o: Outside, full: bool, builtIn: seq<Source>, others: seq<Source>, procCmdline: Dict, md: Metadata)
    returns (r: Option<Dict>)
    ensures var disk := Merge(if full then MergeAll(Configs(builtIn)) else map[], MergeAll(Configs(others)));
      exists keys :: SortedNames(md, keys) && r == RawConfig(o, disk, procCmdline, md, keys)
    ensures AllAgree(OnDisk(full, builtIn, others)) ==>
      exists keys :: SortedNames(md, keys) && r == RawConfig(o, MergeAll(OnDisk(full, builtIn, others)), procCmdline, md, keys)
  {
    hide Sorted, WithMetadata, WithDebug, Elided, Fields, MergeTree, Merge, Configs, MergeAll, AllAgree;
    var rawCfg := LoadRawDiskConfig(full, builtIn, others);
    LayersOnDisk(full, builtIn, others);
    rawCfg := MergeLoop(rawCfg, procCmdline);
    var elided := Elided(o, rawCfg);
    rawCfg := MergeLoop(rawCfg, elided);
    rawCfg := ApplyDebugFlags(o, rawCfg);
    r := MergeMetadata(rawCfg, md);
  }

  lemma LayersOnDisk(full: bool, builtIn: seq<Source>, others: seq<Source>)
    ensures AllAgree(OnDisk(full, builtIn, others)) ==>
      Merge(if full then MergeAll(Configs(builtIn)) else map[], MergeAll(Configs(others))) == MergeAll(OnDisk(full, builtIn, others))
  {
    var a, b := if full then Configs(builtIn) else [], Configs(others);
    if AllAgree(a + b) {
      GroupingIrrelevant(a, b);
    }
  }

  // ---------- Which layer a leaf comes from ----------

  /** What the last layer that says anything about the path says. */
  function LeafFrom(layers: seq<Dict>, p: Path): Option<Tree> {
    if layers == [] then None
    else
      var last := Map(layers[|layers| - 1]);
      if Speaks(last, p) then LeafAt(last, p) else LeafFrom(layers[..|layers| - 1], p)
  }

  lemma {:induction false} LeafOfAll(layers: seq<Dict>, p: Path)
    requires p != []
    ensures LeafAt(Map(MergeAll(layers)), p) == LeafFrom(layers, p)
  {
    if layers != [] {
      LeafOfAll(layers[..|layers| - 1], p);
      MergedLeaf(Map(MergeAll(layers[..|layers| - 1])), Map(layers[|layers| - 1]), p);
    }
  }

  function PathOf(parts: seq<string>): (p: Path)
    ensures |p| == |parts|
  {
    seq(|parts|, i requires 0 <= i < |parts| => Str(parts[i]))
  }

  /** Setting a key leaves all leaves alone that are neither below nor above it. */
  lemma {:induction false} SetKeepsLeaf(t: Dict, parts: seq<string>, v: Tree, p: Path)
    requires parts != [] && SetVal(t, parts, v).Some? && p != [] && !Comparable(p, PathOf(parts))
    ensures LeafAt(Map(SetVal(t, parts, v).value), p) == LeafAt(Map(t), p)
    decreases |parts|
  {
    var key := PathOf(parts);
    if p[0] == key[0] {
      assert key == [key[0]] + PathOf(parts[1..]) && p == [p[0]] + p[1..];
      assert |parts| > 1 && |p| > 1 && !Comparable(p[1..], PathOf(parts[1..])) by {
        assert [p[0]] <= p && [p[0]] <= key;
      }
      SetKeepsLeaf(if Str(parts[0]) in t then t[Str(parts[0])].m else map[], parts[1..], v, p[1..]);
    }
  }

  lemma {:induction false} SetEachKeepsLeaf(o: Outside, cfg: Dict, keys: seq<string>, p: Path)
    requires p != [] && forall key <- keys :: !Comparable(p, PathOf(Split(key, '.')))
    ensures LeafAt(Map(SetEach(o, cfg, keys)), p) == LeafAt(Map(cfg), p)
    decreases |keys|
  {
    if keys != [] {
      var parts := Split(keys[0], '.');
      assert keys[0] in keys;
      if SetVal(cfg, parts, TRUE).Some? {
        SetKeepsLeaf(cfg, parts, TRUE, p);
      }
      SetEachKeepsLeaf(o, GetOrSetVal(o.decode, keys[0], cfg, Some(TRUE)).1, keys[1..], p);
    }
  }

  /** The path has nothing to do with the keys that debugging and metadata may set. */
  ghost predicate Ordinary(p: Path) {
    && p != [] && p[0] != HOSTNAME && p[0] != SSH_KEYS && !Comparable(p, [RANCHER, RESIZE])
    && forall key <- DEBUG_KEYS :: !Comparable(p, PathOf(Split(key, '.')))
  }

  lemma MetadataKeepsLeaf(cfg: Dict, md: Metadata, keys: seq<string>, p: Path)
    requires (forall k <- keys :: k in md.sshPublicKeys) && WithMetadata(cfg, md, keys).Some? && Ordinary(p)
    ensures LeafAt(Map(WithMetadata(cfg, md, keys).value), p) == LeafAt(Map(cfg), p)
  {
    assert p[0] == RANCHER ==> |p| > 1 && p[1] != RESIZE by {
      assert p[0] == RANCHER && |p| == 1 ==> p <= [RANCHER, RESIZE];
      assert p[0] == RANCHER && |p| > 1 && p[1] == RESIZE ==> [RANCHER, RESIZE] <= p;
    }
  }

  /** Each ordinary leaf of the raw configuration comes from the last layer that says anything
      about its path: the files in the order of reading, then the kernel command line, then the
      command line elided in what was read so far. */
  lemma LastLayerDecides(o: Outside, layers: seq<Dict>, procCmdline: Dict, md: Metadata, keys: seq<string>, p: Path)
    requires forall k <- keys :: k in md.sshPublicKeys
    requires RawConfig(o, MergeAll(layers), procCmdline, md, keys).Some? && p != [] && Ordinary(p)
    ensures LeafAt(Map(RawConfig(o, MergeAll(layers), procCmdline, md, keys).value), p)
      == LeafFrom(layers + [procCmdline] + [Elided(o, Merge(MergeAll(layers), procCmdline))], p)
  {
    hide WithMetadata, Elided, Ordinary, SetEach;
    var cfg := Merge(MergeAll(layers), procCmdline);
    var all := layers + [procCmdline] + [Elided(o, cfg)];
    assert all[..|all| - 1] == layers + [procCmdline] && (layers + [procCmdline])[..|layers|] == layers;
    assert MergeAll(layers + [procCmdline]) == cfg;
    assert MergeAll(all) == Merge(cfg, Elided(o, cfg));
    LeafOfAll(all, p);
    OrdinaryKept(o, Merge(cfg, Elided(o, cfg)), md, keys, p);
  }

  lemma OrdinaryKept(o: Outside, cfg: Dict, md: Metadata, keys: seq<string>, p: Path)
    requires (forall k <- keys :: k in md.sshPublicKeys) && WithMetadata(WithDebug(o, cfg), md, keys).Some? && Ordinary(p)
    ensures p != [] && LeafAt(Map(WithMetadata(WithDebug(o, cfg), md, keys).value), p) == LeafAt(Map(cfg), p)
  {
    hide WithMetadata;
    MetadataKeepsLeaf(WithDebug(o, cfg), md, keys, p);
    SetEachKeepsLeaf(o, cfg, DEBUG_KEYS, p);
  }

  // ---------- Over all steps ----------

  lemma SetMakesMap(t: Dict, parts: seq<string>, v: Tree)
    requires |parts| > 1 && parts[0] == "rancher"
    ensures var t' := if SetVal(t, parts, v).Some? then SetVal(t, parts, v).value else t;
      RANCHER in t' && (HasMap(t', RANCHER) <==> HasMap(t, RANCHER) || RANCHER !in t)
  {
    SetUnlessBlocked(t, parts, v);
    SetUnlessBlocked(map[], parts[1..], v);
    assert !Blocked(map[], parts[1..]);
  }

  lemma {:induction false} SetEachMakesMap(o: Outside, cfg: Dict, keys: seq<string>)
    requires keys != [] && forall key <- keys :: |Split(key, '.')| > 1 && Split(key, '.')[0] == "rancher"
    ensures HasMap(SetEach(o, cfg, keys), RANCHER) <==> HasMap(cfg, RANCHER) || RANCHER !in cfg
    decreases |keys|
  {
    assert keys[0] in keys && forall key <- keys[1..] :: key in keys;
    var next := GetOrSetVal(o.decode, keys[0], cfg, Some(TRUE)).1;
    SetMakesMap(cfg, Split(keys[0], '.'), TRUE);
    if |keys| > 1 {
      SetEachMakesMap(o, next, keys[1..]);
    }
  }

  /** When putting the configuration together fails: there is a root disk to enter, `rancher` is not
      a map, and debugging does not create it. */
  lemma RawConfigFails(o: Outside, disk: Dict, procCmdline: Dict, md: Metadata, keys: seq<string>)
    requires forall k <- keys :: k in md.sshPublicKeys
    ensures var cfg := Merge(Merge(disk, procCmdline), Elided(o, Merge(disk, procCmdline)));
      RawConfig(o, disk, procCmdline, md, keys).None?
      <==> md.rootDisk != "" && if Str("rancher") in cfg then !cfg[Str("rancher")].Map? else !o.debugs(cfg)
  {
    hide Split, Elided, SetEach;
    var cfg := Merge(Merge(disk, procCmdline), Elided(o, Merge(disk, procCmdline)));
    MetadataFails(WithDebug(o, cfg), md, keys);
    DebugParts();
    SetEachMakesMap(o, cfg, DEBUG_KEYS);
  }

  /** An empty configuration and a root disk are enough for it to fail. */
  lemma EmptyConfigFails(o: Outside, md: Metadata, keys: seq<string>)
    requires (forall k <- keys :: k in md.sshPublicKeys) && md.rootDisk != "" && !o.debugs(map[])
    ensures RawConfig(o, map[], map[], md, keys).None?
  {
    MergeEmpty(map[]);
    RawConfigFails(o, map[], map[], md, keys);
    assert Elided(o, map[]) == map[];
  }

  /** The user data wins: every leaf of the merged layers is kept by debug flags and metadata,
      apart from the SSH keys, the debug flags themselves and an empty host name. */
  lemma UserDataWins(o: Outside, cfg: Dict, md: Metadata, keys: seq<string>, p: Path)
    requires (forall k <- keys :: k in md.sshPublicKeys) && WithMetadata(WithDebug(o, cfg), md, keys).Some?
    requires p != [] && LeafAt(Map(cfg), p).Some? && p[0] != SSH_KEYS
    requires forall key <- DEBUG_KEYS :: !Comparable(p, PathOf(Split(key, '.')))
    ensures LeafAt(Map(WithMetadata(WithDebug(o, cfg), md, keys).value), p) == LeafAt(Map(cfg), p)
      || (p == [HOSTNAME] && LeafAt(Map(cfg), p) == Some(Leaf(Str(""))))
  {
    hide SetEach, WithMetadata, Split, Comparable;
    SetEachKeepsLeaf(o, cfg, DEBUG_KEYS, p);
    MetadataFillsGaps(WithDebug(o, cfg), md, keys, p);
    LeafIsThere(WithDebug(o, cfg), p);
  }

  lemma LeafIsThere(cfg: Dict, p: Path)
    requires LeafAt(Map(cfg), p).Some?
    ensures p == [HOSTNAME] && NoHostname(cfg) ==> LeafAt(Map(cfg), p) == Some(Leaf(Str("")))
    ensures p == [RANCHER, RESIZE] ==> HasMap(cfg, RANCHER) && RESIZE in cfg[RANCHER].m
  {
    if p == [RANCHER, RESIZE] {
      assert p[1..] == [RESIZE];
    }
  }
}
