/** Building one dispatcher: xdp_multiprog__generate(), __link_prog(), the dispatcher
    configuration, and the pin directory that __pin(), __unpin() and
    __link_pinned_progs() write and read. */
module Dispatcher {
  import opened Common
  import opened DispatcherOrder

  datatype Errno = EINVAL | E2BIG | ENOENT | EAGAIN | EBUSY | EEXIST | OtherErr

  const MAX_DISPATCHER_ACTIONS: nat := 10
  const XDP_DISPATCHER_RETVAL: nat := 31

  // ---------------------------------------------------------------------------
  // Program metadata

  /** The metadata half of struct xdp_program. */
  class XdpProgram {
    var loaded: bool
    var runPrio: nat
    var chainCalls: Bitmap

    /** Only the 31 low bits can stand for actions. */
    ghost predicate Valid()
      reads this
    {
      forall b | b in chainCalls :: b < XDP_DISPATCHER_RETVAL
    }

    /** Defaults of xdp_program__new(): priority 50, chain call on XDP_PASS. */
    constructor ()
      ensures Valid() && !loaded && runPrio == 50 && chainCalls == {2}
    {
      loaded, runPrio, chainCalls := false, 50, {2};
    }

    method SetChainCallEnabled(action: nat, enabled: bool) returns (err: Option<Errno>)
      requires Valid()
      modifies this`chainCalls
      ensures Valid()
      ensures err == if loaded || action >= 31 then Some(EINVAL) else None
      ensures err.Some? ==> chainCalls == old(chainCalls)
      ensures err.None? ==> (action in chainCalls <==> enabled)
      ensures forall b | b != action :: b in chainCalls <==> b in old(chainCalls)
    {
      if loaded || action >= XDP_DISPATCHER_RETVAL {
        return Some(EINVAL);
      }
      if enabled {
        chainCalls := chainCalls + {action};
      } else {
        chainCalls := chainCalls - {action};
      }
      err := None;
    }

    method SetRunPrio(prio: nat) returns (err: Option<Errno>)
      requires Valid()
      modifies this`runPrio
      ensures Valid()
      ensures err == if loaded then Some(EINVAL) else None
      ensures runPrio == if loaded then old(runPrio) else prio
    {
      if loaded {
        return Some(EINVAL);
      }
      runPrio := prio;
      err := None;
    }
  }

  ghost predicate CallerBitsOnly(c: Component) {
    forall b | b in c.chainCalls :: b < 31
  }

  // ---------------------------------------------------------------------------
  // Component lists

  ghost predicate DistinctIds(list: seq<Component>) {
    forall i, j | 0 <= i < j < |list| :: list[i].prog.id != list[j].prog.id
  }

  ghost function IdSet(list: seq<Component>): set<nat> {
    set c | c in list :: c.prog.id
  }

  /** The list without the programs whose ids are given. */
  function Without(list: seq<Component>, ids: set<nat>): seq<Component> {
    if list == [] then []
    else (if list[0].prog.id in ids then [] else [list[0]]) + Without(list[1..], ids)
  }

  function Components(entries: seq<Entry>): seq<Component> {
    seq(|entries|, i requires 0 <= i < |entries| => entries[i].comp)
  }

  /** Components read back from their pins: loaded, and without an object. */
  function Pinned(list: seq<Component>): seq<Entry> {
    seq(|list|, i requires 0 <= i < |list| => Entry(list[i], true, false))
  }

  function EntryIds(entries: seq<Entry>): set<nat> {
    set e | e in entries :: e.comp.prog.id
  }

  ghost predicate DistinctEntries(entries: seq<Entry>) {
    forall i, j | 0 <= i < j < |entries| :: entries[i].comp.prog.id != entries[j].comp.prog.id
  }

  lemma WithoutMembers(list: seq<Component>, ids: set<nat>)
    ensures forall c :: c in Without(list, ids) <==> c in list && c.prog.id !in ids
  {
    if list != [] {
      WithoutMembers(list[1..], ids);
    }
  }

  lemma {:induction false} WithoutMultiplicity(list: seq<Component>, ids: set<nat>, c: Component)
    ensures multiset(Without(list, ids))[c] == if c.prog.id in ids then 0 else multiset(list)[c]
  {
    if list != [] {
      WithoutMultiplicity(list[1..], ids, c);
      assert list == [list[0]] + list[1..];
    }
  }

  lemma WithoutPermutation(a: seq<Component>, b: seq<Component>, ids: set<nat>)
    requires Permutation(a, b)
    ensures Permutation(Without(a, ids), Without(b, ids))
  {
    forall c
      ensures multiset(Without(a, ids))[c] == multiset(Without(b, ids))[c]
    {
      WithoutMultiplicity(a, ids, c);
      WithoutMultiplicity(b, ids, c);
    }
  }

  lemma {:induction false} WithoutDistinct(list: seq<Component>, ids: set<nat>)
    requires DistinctIds(list)
    ensures DistinctIds(Without(list, ids))
  {
    if list != [] {
      WithoutDistinct(list[1..], ids);
      WithoutMembers(list[1..], ids);
      var rest := Without(list[1..], ids);
      forall j | 0 <= j < |rest|
        ensures rest[j].prog.id != list[0].prog.id
      {
        assert rest[j] in rest && rest[j] in list[1..];
      }
    }
  }

  lemma OneMoreInCommon(ids: set<nat>, tail: set<nat>, id: nat)
    requires id !in tail
    ensures |ids * ({id} + tail)| == |ids * tail| + if id in ids then 1 else 0
  {
    if id in ids {
      assert ids * ({id} + tail) == {id} + ids * tail;
    } else {
      assert ids * ({id} + tail) == ids * tail;
    }
  }

  lemma {:induction false} WithoutLength(list: seq<Component>, ids: set<nat>)
    requires DistinctIds(list)
    ensures |list| - |Without(list, ids)| == |ids * IdSet(list)|
  {
    if list == [] {
      assert ids * IdSet(list) == {};
    } else {
      var tail := list[1..];
      WithoutLength(tail, ids);
      assert list == [list[0]] + tail;
      assert IdSet(list) == {list[0].prog.id} + IdSet(tail);
      assert list[0].prog.id !in IdSet(tail);
      hide IdSet, DistinctIds;
      OneMoreInCommon(ids, IdSet(tail), list[0].prog.id);
    }
  }

  lemma {:induction false} DistinctEntriesCount(entries: seq<Entry>)
    requires DistinctEntries(entries)
    ensures |EntryIds(entries)| == |entries|
  {
    if entries != [] {
      var tail := entries[1..];
      DistinctEntriesCount(tail);
      assert entries == [entries[0]] + tail;
      assert EntryIds(entries) == {entries[0].comp.prog.id} + EntryIds(tail);
      assert entries[0].comp.prog.id !in EntryIds(tail);
    }
  }

  lemma {:induction false} DistinctOnce(list: seq<Component>, c: Component)
    requires DistinctIds(list)
    ensures multiset(list)[c] <= 1
  {
    if list != [] {
      DistinctOnce(list[1..], c);
      assert list == [list[0]] + list[1..];
      assert list[0] !in list[1..];
    }
  }

  lemma PermutationDistinct(a: seq<Component>, b: seq<Component>)
    requires DistinctIds(a) && Permutation(a, b)
    ensures DistinctIds(b)
  {
    PermutationMember(a, b);
    forall i, j | 0 <= i < j < |b|
      ensures b[i].prog.id != b[j].prog.id
    {
      assert b[i] in a && b[j] in a;
      if b[i] == b[j] {
        MultisetSplit(b, i);
        assert b[j] in b[i + 1..];
        DistinctOnce(a, b[i]);
      }
    }
  }

  /** How many programs a removal keeps, and when everything asked for was there. */
  lemma RemovalCount(list: seq<Component>, ids: set<nat>)
    requires DistinctIds(list)
    ensures |Without(list, ids)| >= |list| - |ids|
    ensures |Without(list, ids)| == |list| - |ids| <==> ids <= IdSet(list)
  {
    WithoutLength(list, ids);
    var present := ids * IdSet(list);
    assert ids == present + (ids - present);
    assert |ids| == |present| + |ids - present|;
    if ids <= IdSet(list) {
      assert present == ids;
    } else {
      assert ids - present != {};
    }
  }

  // ---------------------------------------------------------------------------
  // Configuration and pins

  /** struct xdp_dispatcher_config. */
  datatype Config = Config(numProgsEnabled: nat, chainCalls: seq<Bitmap>, runPrios: seq<nat>)

  /** What __generate() stores for a list of components: the top bit is always added. */
  ghost function ConfigOf(links: seq<Component>): Config
    requires |links| <= MAX_DISPATCHER_ACTIONS
  {
    Config(
      |links|,
      seq(MAX_DISPATCHER_ACTIONS, i requires 0 <= i =>
        if i < |links| then links[i].chainCalls + {XDP_DISPATCHER_RETVAL} else {}),
      seq(MAX_DISPATCHER_ACTIONS, i requires 0 <= i => if i < |links| then links[i].runPrio else 0))
  }

  /** File names progN-link and progN-prog. */
  datatype PinName = LinkPin(slot: nat) | ProgPin(slot: nat)

  type Directory = map<PinName, KernelProg>

  ghost function PinDir(links: seq<Component>): Directory {
    map name: PinName |
      name in (set i | 0 <= i < |links| :: LinkPin(i)) + (set i | 0 <= i < |links| :: ProgPin(i)) ::
      links[name.slot].prog
  }

  lemma PinDirKeys(links: seq<Component>)
    ensures forall name: PinName :: name in PinDir(links) <==> name.slot < |links|
    ensures forall name: PinName | name.slot < |links| :: PinDir(links)[name] == links[name.slot].prog
  {
    forall name: PinName
      ensures name in PinDir(links) <==> name.slot < |links|
    {
      match name {
        case LinkPin(i) =>
          assert i < |links| ==> LinkPin(i) in set i | 0 <= i < |links| :: LinkPin(i);
        case ProgPin(i) =>
          assert i < |links| ==> ProgPin(i) in set i | 0 <= i < |links| :: ProgPin(i);
      }
    }
  }

  /** The i-th program as __link_pinned_progs() rebuilds it from its pin and the
      configuration: the top bit is stripped again. */
  function ReadSlot(prog: KernelProg, config: Config, i: nat): Component
    requires i < |config.chainCalls| && i < |config.runPrios|
  {
    Component(prog, config.runPrios[i], config.chainCalls[i] - {XDP_DISPATCHER_RETVAL})
  }

  ghost predicate ConfigShape(config: Config) {
    && config.numProgsEnabled <= MAX_DISPATCHER_ACTIONS
    && |config.chainCalls| == |config.runPrios| == MAX_DISPATCHER_ACTIONS
  }

  /** The components a reader finds, or None when a pin is missing. */
  ghost function ReadBack(dirs: map<nat, Directory>, d: nat, config: Config): Option<seq<Component>>
    requires ConfigShape(config)
  {
    if d in dirs && forall i: nat | i < config.numProgsEnabled :: ProgPin(i) in dirs[d] then
      Some(seq(config.numProgsEnabled, i requires 0 <= i < config.numProgsEnabled =>
        ReadSlot(dirs[d][ProgPin(i)], config, i)))
    else
      None
  }

  /** How many programs __link_pinned_progs() links, and counts in num_links, before it meets
      a slot whose pin is missing. */
  ghost function LinkedFrom(dir: Directory, i: nat, n: nat): (r: nat)
    requires i <= n
    ensures i <= r <= n
    ensures forall k: nat | i <= k < r :: ProgPin(k) in dir
    ensures r < n ==> ProgPin(r) !in dir
    decreases n - i
  {
    if i < n && ProgPin(i) in dir then LinkedFrom(dir, i + 1, n) else i
  }

  ghost function LinkedCount(dirs: map<nat, Directory>, d: nat, config: Config): nat {
    if d in dirs then LinkedFrom(dirs[d], 0, config.numProgsEnabled) else 0
  }

  /** Part of the files of a directory. */
  ghost predicate SubDirectory(part: Directory, whole: Directory) {
    forall name | name in part :: name in whole && part[name] == whole[name]
  }

  /** The order in which pinning creates files and unpinning removes them. */
  function FileIndex(name: PinName): nat {
    match name
    case LinkPin(i) => 2 * i
    case ProgPin(i) => 2 * i + 1
  }

  /** A directory after the first `gone` files have been removed. */
  ghost function Trim(dir: Directory, gone: nat): Directory {
    map name | name in dir && FileIndex(name) >= gone :: dir[name]
  }

  /** What an interrupted removal leaves of a complete directory. */
  ghost predicate IsRest(dir: Directory, links: seq<Component>) {
    exists gone: nat :: dir == Trim(PinDir(links), gone)
  }

  lemma WholeIsRest(links: seq<Component>)
    ensures IsRest(PinDir(links), links)
  {
    assert Trim(PinDir(links), 0) == PinDir(links);
  }

  lemma TrimRest(dir: Directory, links: seq<Component>, gone: nat)
    requires IsRest(dir, links)
    ensures IsRest(Trim(dir, gone), links)
  {
    var g: nat :| dir == Trim(PinDir(links), g);
    hide PinDir;
    assert Trim(dir, gone) == Trim(PinDir(links), if g < gone then gone else g);
  }

  lemma RestIsPart(dir: Directory, links: seq<Component>)
    requires IsRest(dir, links)
    ensures SubDirectory(dir, PinDir(links))
  {
    hide PinDir;
  }

  /** A removal starts with slot 0, so a reader of what it leaves links every program or
      none: num_links never counts a part. */
  lemma RestLinksAllOrNone(dirs: map<nat, Directory>, d: nat, links: seq<Component>)
    requires |links| <= MAX_DISPATCHER_ACTIONS && (d in dirs ==> IsRest(dirs[d], links))
    ensures var n := LinkedCount(dirs, d, ConfigOf(links)); n == 0 || n == |links|
    ensures LinkedCount(dirs, d, ConfigOf(links)) == |links| && links != [] ==> ReadBack(dirs, d, ConfigOf(links)).Some?
  {
    if d in dirs {
      PinDirKeys(links);
      var g: nat :| dirs[d] == Trim(PinDir(links), g);
      var n := LinkedFrom(dirs[d], 0, |links|);
      if n < |links| {
        assert FileIndex(ProgPin(n)) < g;
      }
    }
  }

  /** A reader of a partly removed directory finds all components or reports failure. */
  lemma ReadBackAllOrNothing(dirs: map<nat, Directory>, d: nat, links: seq<Component>)
    requires |links| <= MAX_DISPATCHER_ACTIONS && forall c | c in links :: CallerBitsOnly(c)
    requires d in dirs ==> SubDirectory(dirs[d], PinDir(links))
    ensures var r := ReadBack(dirs, d, ConfigOf(links)); r.None? || r.value == links
  {
    var config := ConfigOf(links);
    var r := ReadBack(dirs, d, config);
    if r.Some? {
      PinDirKeys(links);
      forall i | 0 <= i < |links|
        ensures r.value[i] == links[i]
      {
        assert ProgPin(i) in dirs[d];
        assert links[i] in links && CallerBitsOnly(links[i]);
        assert config.chainCalls[i] == links[i].chainCalls + {XDP_DISPATCHER_RETVAL};
        assert config.chainCalls[i] - {XDP_DISPATCHER_RETVAL} == links[i].chainCalls;
      }
    }
  }

  /** Reading what was pinned gives back programs, order, priorities and chain-call
      bits, and nothing else does: the top bit is added once and stripped once. */
  lemma ReadBackExact(dirs: map<nat, Directory>, d: nat, links: seq<Component>)
    requires |links| <= MAX_DISPATCHER_ACTIONS
    requires d in dirs && dirs[d] == PinDir(links)
    ensures ReadBack(dirs, d, ConfigOf(links)) == Some(links) <==>
            (forall c | c in links :: 31 !in c.chainCalls)
  {
    PinDirKeys(links);
    var config := ConfigOf(links);
    var r := ReadBack(dirs, d, config);
    assert forall i: nat | i < |links| :: ProgPin(i) in dirs[d];
    assert r.Some? && |r.value| == |links|;
    forall i | 0 <= i < |links|
      ensures r.value[i] == links[i] <==> XDP_DISPATCHER_RETVAL !in links[i].chainCalls
    {
      assert r.value[i] == ReadSlot(links[i].prog, config, i);
      assert config.chainCalls[i] == links[i].chainCalls + {XDP_DISPATCHER_RETVAL};
      if XDP_DISPATCHER_RETVAL !in links[i].chainCalls {
        assert config.chainCalls[i] - {XDP_DISPATCHER_RETVAL} == links[i].chainCalls;
      }
    }
    if forall c | c in links :: XDP_DISPATCHER_RETVAL !in c.chainCalls {
      forall i | 0 <= i < |links|
        ensures r.value[i] == links[i]
      {
        assert links[i] in links;
      }
      assert r.value == links;
    }
  }

  /** The bpffs tree below /sys/fs/bpf/xdp for one interface. Every method runs with
      the directory lock held from start to end. */
  class PinStore {
    var dirs: map<nat, Directory>

    constructor ()
      ensures dirs == map[]
    {
      dirs := map[];
    }

    /** Pins links and programs one file after the other, up to the first that exists already or that
        the kernel refuses for another reason, `failAt`. */
    static method FillDirectory(links: seq<Component>, given: Directory, failAt: Option<nat>)
        returns (dir: Directory, ok: bool, ghost at: nat)
      ensures at <= 2 * |links| && (ok <==> at == 2 * |links|)
      ensures forall j | 0 <= j < at :: Allowed(given, failAt, j)
      ensures !ok ==> !Allowed(given, failAt, at)
      ensures dir == given + Head(PinDir(links), at)
    {
      hide PinDir, Head;
      dir := given;
      NothingPinned(given, links);
      var i := 0;
      while i < |links|
        invariant 0 <= i <= |links| && dir == given + Head(PinDir(links), 2 * i)
        invariant forall j | 0 <= j < 2 * i :: Allowed(given, failAt, j)
      {
        OnePinned(given, links, LinkPin(i));
        if failAt == Some(2 * i) || LinkPin(i) in dir {
          return dir, false, 2 * i;
        }
        dir := dir[LinkPin(i) := links[i].prog];
        OnePinned(given, links, ProgPin(i));
        if failAt == Some(2 * i + 1) || ProgPin(i) in dir {
          return dir, false, 2 * i + 1;
        }
        dir := dir[ProgPin(i) := links[i].prog];
        i := i + 1;
      }
      return dir, true, 2 * |links|;
    }

    /** The err_unpin loop: unlinks every name of the dispatcher, whoever created it, and goes on
        past the files in `stuck`, which the kernel refuses to unlink. */
    static method EmptyDirectory(dir: Directory, links: seq<Component>, stuck: set<PinName>) returns (rest: Directory)
      ensures rest == Cleaned(dir, |links|, stuck)
    {
      hide Cleaned;
      rest := dir;
      NothingCleaned(dir, stuck);
      var i := 0;
      while i < |links|
        invariant 0 <= i <= |links| && rest == Cleaned(dir, i, stuck)
      {
        if LinkPin(i) !in stuck {
          rest := rest - {LinkPin(i)};
        }
        if ProgPin(i) !in stuck {
          rest := rest - {ProgPin(i)};
        }
        SlotCleaned(dir, i, stuck);
        i := i + 1;
      }
    }

    /** xdp_multiprog__pin(). A directory that exists already is used as it is. `failAt` is a file that
        cannot be pinned, `noDir` a mkdir() that fails; `stuck` and `dirStuck` are the files and the
        directory that the clean-up after a failure cannot remove. */
    method Pin(d: nat, links: seq<Component>, noDir: bool, failAt: Option<nat>, stuck: set<PinName>, dirStuck: bool)
        returns (ok: bool, ghost at: nat)
      modifies this
      ensures noDir ==> !ok && dirs == old(dirs)
      ensures !noDir ==>
                var before: Directory := if d in old(dirs) then old(dirs)[d] else map[];
                && at <= 2 * |links| && (ok <==> at == 2 * |links|)
                && (forall j | 0 <= j < at :: Allowed(before, failAt, j)) && (!ok ==> !Allowed(before, failAt, at))
                && (ok ==> dirs == old(dirs)[d := before + PinDir(links)])
                && (!ok ==>
                      var left := Cleaned(before + Head(PinDir(links), at), |links|, stuck);
                      dirs == if left == map[] && !dirStuck then old(dirs) - {d} else old(dirs)[d := left])
    {
      hide Head, Cleaned, PinDir, Allowed;
      if noDir {
        return false, 0;
      }
      var before: Directory := if d in dirs then dirs[d] else map[];
      var dir;
      dir, ok, at := FillDirectory(links, before, failAt);
      if ok {
        AllPinned(links);
        dirs := dirs[d := dir];
        return;
      }
      dir := EmptyDirectory(dir, links, stuck);
      if dir == map[] && !dirStuck {
        dirs := dirs - {d};
      } else {
        dirs := dirs[d := dir];
      }
    }

    /** xdp_multiprog__unpin(): removes file after file and stops at the first that is missing
        or that cannot be removed; what it removed stays removed. */
    method Unpin(d: nat, links: seq<Component>, failAt: Option<nat>) returns (ok: bool)
      modifies this
      ensures ok ==> d in old(dirs) && dirs == old(dirs) - {d}
      ensures !ok && d !in old(dirs) ==> dirs == old(dirs)
      ensures !ok && d in old(dirs) ==>
                exists gone: nat | gone <= 2 * |links| :: dirs == old(dirs)[d := Trim(old(dirs)[d], gone)]
      ensures d in old(dirs) && old(dirs)[d] == PinDir(links) ==>
                (ok <==> failAt.None? || failAt.value > 2 * |links|)
      ensures d in old(dirs) && old(dirs)[d] == PinDir(links) && !ok ==>
                dirs == old(dirs)[d := Trim(PinDir(links), failAt.value)]
    {
      hide Trim, PinDir;
      if d !in dirs {
        return false;
      }
      ghost var gone;
      var dir;
      dir, gone, ok := RemoveFiles(dirs[d], links, failAt);
      AllGone(links);
      if ok && dir == map[] && failAt != Some(2 * |links|) {
        dirs := dirs - {d};
        return true;
      }
      dirs := dirs[d := dir];
      return false;
    }

    /** The loop of xdp_multiprog__unpin(). */
    static method RemoveFiles(dir: Directory, links: seq<Component>, failAt: Option<nat>)
        returns (rest: Directory, ghost gone: nat, ok: bool)
      ensures gone <= 2 * |links| && rest == Trim(dir, gone)
      ensures failAt.None? || failAt.value >= gone
      ensures ok ==> gone == 2 * |links|
      ensures !ok && dir == PinDir(links) ==> failAt == Some(gone) && gone < 2 * |links|
    {
      hide Trim, PinDir;
      rest := dir;
      NothingGone(dir);
      var i := 0;
      while i < |links|
        invariant 0 <= i <= |links| && rest == Trim(dir, 2 * i)
        invariant failAt.None? || failAt.value >= 2 * i
      {
        gone := 2 * i;
        StillThere(links, LinkPin(i));
        if failAt == Some(2 * i) || LinkPin(i) !in rest {
          return rest, gone, false;
        }
        rest := rest - {LinkPin(i)};
        NextFile(dir, LinkPin(i));
        gone := 2 * i + 1;
        StillThere(links, ProgPin(i));
        if failAt == Some(2 * i + 1) || ProgPin(i) !in rest {
          return rest, gone, false;
        }
        rest := rest - {ProgPin(i)};
        NextFile(dir, ProgPin(i));
        i := i + 1;
      }
      return rest, 2 * i, true;
    }

    /** xdp_multiprog__link_pinned_progs(). `failAt` is a slot that cannot be read although its
        pin is there. numLinks keeps its value when a later slot fails. */
    method LinkPinnedProgs(d: nat, config: Config, failAt: Option<nat>) returns (r: Option<seq<Component>>, numLinks: nat)
      requires ConfigShape(config)
      ensures var n := LinkedCount(dirs, d, config);
              numLinks == if failAt.Some? && failAt.value < n then failAt.value else n
      ensures failAt.None? || failAt.value >= config.numProgsEnabled ==> r == ReadBack(dirs, d, config)
      ensures r.Some? ==> |r.value| == numLinks
      ensures r.None? ==> d !in dirs || numLinks < config.numProgsEnabled
    {
      if d !in dirs {
        return None, 0;
      }
      var list: seq<Component> := [];
      var i := 0;
      while i < config.numProgsEnabled
        invariant 0 <= i <= config.numProgsEnabled && |list| == i
        invariant LinkedCount(dirs, d, config) == LinkedFrom(dirs[d], i, config.numProgsEnabled)
        invariant failAt.None? || failAt.value >= i
        invariant forall k: nat | k < i :: ProgPin(k) in dirs[d]
        invariant forall k: nat | k < i :: list[k] == ReadSlot(dirs[d][ProgPin(k)], config, k)
      {
        if failAt == Some(i) || ProgPin(i) !in dirs[d] {
          return None, i;
        }
        list := list + [ReadSlot(dirs[d][ProgPin(i)], config, i)];
        i := i + 1;
      }
      assert list == ReadBack(dirs, d, config).value;
      return Some(list), i;
    }
  }

  /** The name of the j-th file. */
  function FileName(j: nat): PinName {
    if j % 2 == 0 then LinkPin(j / 2) else ProgPin(j / 2)
  }

  /** The j-th file can be pinned beside what was there. */
  predicate Allowed(given: Directory, failAt: Option<nat>, j: nat) {
    failAt != Some(j) && FileName(j) !in given
  }

  /** The first files of a directory. */
  ghost function Head(dir: Directory, n: nat): Directory {
    map name | name in dir && FileIndex(name) < n :: dir[name]
  }

  /** A directory without the files of the first n slots, except those that are stuck. */
  ghost function Cleaned(dir: Directory, n: nat, stuck: set<PinName>): Directory {
    map name | name in dir && (name.slot >= n || name in stuck) :: dir[name]
  }

  lemma NothingPinned(given: Directory, links: seq<Component>)
    ensures given + Head(PinDir(links), 0) == given
  {
    hide PinDir;
  }

  lemma AllPinned(links: seq<Component>)
    ensures Head(PinDir(links), 2 * |links|) == PinDir(links)
  {
    PinDirKeys(links);
  }

  lemma OnePinned(given: Directory, links: seq<Component>, name: PinName)
    requires name.slot < |links|
    ensures FileName(FileIndex(name)) == name
    ensures var dir := given + Head(PinDir(links), FileIndex(name));
            && (name in dir <==> name in given)
            && dir[name := links[name.slot].prog] == given + Head(PinDir(links), FileIndex(name) + 1)
  {
    PinDirKeys(links);
    hide PinDir;
    var dir := given + Head(PinDir(links), FileIndex(name));
    assert forall other: PinName :: FileIndex(other) == FileIndex(name) ==> other == name;
    assert dir[name := links[name.slot].prog] == given + Head(PinDir(links), FileIndex(name) + 1);
  }

  lemma NothingCleaned(dir: Directory, stuck: set<PinName>)
    ensures Cleaned(dir, 0, stuck) == dir
  {
  }

  lemma SlotCleaned(dir: Directory, i: nat, stuck: set<PinName>)
    ensures Cleaned(dir, i + 1, stuck) ==
            Cleaned(dir, i, stuck) - (if LinkPin(i) in stuck then {} else {LinkPin(i)})
                                   - (if ProgPin(i) in stuck then {} else {ProgPin(i)})
  {
    assert forall name: PinName | name.slot == i :: name == LinkPin(i) || name == ProgPin(i);
  }

  /** What a failed pin leaves of a directory that was not there before: any of the files but the last,
      or an empty directory. */
  ghost function Part(links: seq<Component>, left: set<PinName>): Directory {
    map name | name in PinDir(links) && name in left :: PinDir(links)[name]
  }

  predicate LeftOver(links: seq<Component>, left: set<PinName>) {
    links != [] && forall name | name in left :: FileIndex(name) < 2 * |links| - 1
  }

  /** The machine's account of a failed pin is that of the loop, both ways. */
  lemma PinLeaves(links: seq<Component>, at: nat, stuck: set<PinName>)
    requires at < 2 * |links|
    ensures exists left: set<PinName> ::
              LeftOver(links, left) && Cleaned(Head(PinDir(links), at), |links|, stuck) == Part(links, left)
  {
    PinDirKeys(links);
    var left := set name | name in stuck && FileIndex(name) < at;
    assert Cleaned(Head(PinDir(links), at), |links|, stuck) == Part(links, left) by {
      hide PinDir;
    }
    assert LeftOver(links, left);
  }

  lemma PartIsLeft(links: seq<Component>, left: set<PinName>)
    requires LeftOver(links, left)
    ensures Cleaned(Head(PinDir(links), 2 * |links| - 1), |links|, left) == Part(links, left)
  {
    PinDirKeys(links);
    hide PinDir;
  }

  lemma NextFile(dir: Directory, name: PinName)
    ensures Trim(dir, FileIndex(name)) - {name} == Trim(dir, FileIndex(name) + 1)
  {
  }

  lemma NothingGone(dir: Directory)
    ensures Trim(dir, 0) == dir
  {
  }

  lemma StillThere(links: seq<Component>, name: PinName)
    requires name.slot < |links|
    ensures name in Trim(PinDir(links), FileIndex(name))
  {
    PinDirKeys(links);
  }

  lemma AllGone(links: seq<Component>)
    ensures Trim(PinDir(links), 2 * |links|) == map[]
  {
    PinDirKeys(links);
  }
}
