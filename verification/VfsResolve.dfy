// Who owns what while a path is resolved through nested containers (src/vfs/vfs_tree.c, and the mount
// operation of src/vfs/vfs_ops.c).  Plugins may answer every call as they like.  The preconditions of
// Close and Free forbid to close or free anything twice, and the contracts say what is left at the end.

module VfsResolve {

  import opened Wrappers

  type HandleId = nat
  type BufferId = nat
  type Entry = nat      // a registered plugin, by its place in the list

  datatype ResolveError = NoError | FileNotFound | NoDriver | InvalidPath | InvalidFileSize | NotMountable

  // A handle belongs to the plugin that opened it; one opened on memory owns that memory.
  datatype Opened = Opened(entry: Entry, memory: Option<BufferId>)

  datatype LoadData = LoadData(handle: Option<HandleId>, split: nat, data: Option<BufferId>, isDirectory: bool,
                               error: ResolveError)

  datatype Driver = Driver(entry: Entry, handle: HandleId)

  datatype FinalDriver = FinalDriver(entry: Option<Entry>, handle: Option<HandleId>, error: ResolveError)

  // What plugins are asked, and what they answer.  A path is given by its first segment and the one behind it.
  datatype Call =
    | CanOpenCall(entry: Entry, from: nat, to: nat, yes: bool)
    | OpenCall(entry: Entry, from: nat, to: nat, answer: Option<HandleId>)
    | IsDirectoryCall(entry: Entry, handle: HandleId, yes: bool)
    | SizeCall(entry: Entry, handle: HandleId, size: int)
    | ReadCall(entry: Entry, handle: HandleId, buffer: BufferId, wanted: nat, bytesRead: int)
    | TakesMemoryCall(entry: Entry, yes: bool)
    | MemoryCall(entry: Entry, buffer: BufferId, answer: Option<HandleId>, corrupt: bool)
    | CloneCall(entry: Entry, handle: HandleId, answer: Option<HandleId>)

  const MAX_JOB_THREADS := 2

  // A node of the tree keeps one handle per worker.
  class Node {
    var entry: Option<Entry>
    var handles: seq<Option<HandleId>>
  }

  ghost function Named(slots: seq<Option<HandleId>>): set<HandleId> {
    set i | 0 <= i < |slots| && slots[i].Some? :: slots[i].value
  }

  lemma NamedSnoc(slots: seq<Option<HandleId>>, slot: Option<HandleId>)
    ensures Named(slots + [slot]) == Named(slots) + if slot.Some? then {slot.value} else {}
  {
    var more := slots + [slot];
    assert forall i :: 0 <= i < |slots| ==> more[i] == slots[i];
    assert more[|slots|] == slot;
  }

  ghost predicate OpenedBy(live: map<HandleId, Opened>, entry: Entry, slots: seq<Option<HandleId>>) {
    forall i :: 0 <= i < |slots| && slots[i].Some? ==> slots[i].value in live && live[slots[i].value].entry == entry
  }

  ghost predicate Owns(live: map<HandleId, Opened>, h: HandleId, b: BufferId) {
    h in live && live[h].memory == Some(b)
  }

  ghost predicate IsOwned(live: map<HandleId, Opened>, b: BufferId) {
    exists h: HandleId :: Owns(live, h, b)
  }

  // The owners of all buffers when a handle is opened, and when one is closed.
  lemma OwnersOpen(live: map<HandleId, Opened>, now: map<HandleId, Opened>, h: HandleId, memory: Option<BufferId>)
    requires h !in live && h in now && now == live[h := now[h]] && now[h].memory == memory
    ensures forall k: HandleId, b: BufferId :: Owns(now, k, b) <==> Owns(live, k, b) || (k == h && memory == Some(b))
    ensures forall b: BufferId :: IsOwned(now, b) <==> IsOwned(live, b) || memory == Some(b)
  {
    forall b: BufferId ensures IsOwned(now, b) <==> IsOwned(live, b) || memory == Some(b) {
      if k: HandleId :| Owns(live, k, b) { assert Owns(now, k, b); }
      if k: HandleId :| Owns(now, k, b) { assert k == h || Owns(live, k, b); }
      if memory == Some(b) { assert Owns(now, h, b); }
    }
  }

  lemma OwnersClose(live: map<HandleId, Opened>, h: HandleId)
    requires h in live
    requires forall b: BufferId, k: HandleId, l: HandleId :: Owns(live, k, b) && Owns(live, l, b) ==> k == l
    ensures forall k: HandleId, b: BufferId :: Owns(live - {h}, k, b) <==> Owns(live, k, b) && k != h
    ensures forall b: BufferId :: IsOwned(live - {h}, b) <==> IsOwned(live, b) && live[h].memory != Some(b)
  {
    var now := live - {h};
    forall k: HandleId, b: BufferId ensures Owns(now, k, b) <==> Owns(live, k, b) && k != h { }
    forall b: BufferId ensures IsOwned(now, b) <==> IsOwned(live, b) && live[h].memory != Some(b) {
      if live[h].memory == Some(b) { assert Owns(live, h, b); }
      if k: HandleId :| Owns(live, k, b) { assert k != h ==> Owns(now, k, b); }
    }
  }

  lemma MemoryIsOwned(live: map<HandleId, Opened>, h: HandleId)
    requires h in live && live[h].memory.Some?
    ensures Owns(live, h, live[h].memory.value) && IsOwned(live, live[h].memory.value)
  {
    assert Owns(live, h, live[h].memory.value);
  }

  // What a resolution leaves of the open handles, when it is given `root`: on success the one handle it
  // returns in root's place, and on an error nothing in its place.
  ghost predicate Settles(was: map<HandleId, Opened>, now: map<HandleId, Opened>, root: HandleId, r: FinalDriver) {
    && (r.error.NoError? <==> r.handle.Some?) && (r.handle.Some? <==> r.entry.Some?)
    && (r.handle.None? ==> now == was - {root})
    && (r.handle.Some? ==>
          && r.handle.value in now && now[r.handle.value].entry == r.entry.value
          && (r.handle.value == root || r.handle.value !in was)
          && now - {r.handle.value} == was - {root})
  }

  lemma SettlesInTurn(was: map<HandleId, Opened>, mid: map<HandleId, Opened>, now: map<HandleId, Opened>,
                      root: HandleId, next: FinalDriver, r: FinalDriver)
    requires Settles(was, mid, root, next) && next.error.NoError? && Settles(mid, now, next.handle.value, r)
    ensures Settles(was, now, root, r)
  {
    assert r.handle.Some? ==> (r.handle.value in was - {root} <==> r.handle.value in mid - {next.handle.value});
  }

  // What is open is what was, and the clones, each of which is new or the handle itself.
  ghost predicate ClonesOf(was: map<HandleId, Opened>, now: map<HandleId, Opened>, entry: Entry, handle: HandleId,
                           clones: seq<HandleId>)
  {
    && (forall h :: h in was ==> h in now && now[h] == was[h])
    && (forall h :: h in now ==> h in was || h in clones)
    && (forall h :: h in clones ==> (h == handle || h !in was) && h in now && now[h].entry == entry)
  }

  // The slots filled so far, the given handle in the first of them.
  ghost predicate Cloning(was: map<HandleId, Opened>, now: map<HandleId, Opened>, entry: Entry, handle: HandleId,
                          slots: seq<Option<HandleId>>, clones: seq<HandleId>)
  {
    && |slots| == |clones| + 1 && slots[0] == Some(handle) && OpenedBy(now, entry, slots)
    && now - Named(slots) == was - {handle} && Named(slots) == (set h | h in clones) + {handle}
    && ClonesOf(was, now, entry, handle, clones)
  }

  lemma CloningOn(was: map<HandleId, Opened>, now: map<HandleId, Opened>, now': map<HandleId, Opened>, entry: Entry,
                  handle: HandleId, slots: seq<Option<HandleId>>, clones: seq<HandleId>, h: HandleId)
    requires Cloning(was, now, entry, handle, slots, clones)
    requires if h == handle || h in clones then now' == now else h !in now && now' == now[h := Opened(entry, None)]
    ensures Cloning(was, now', entry, handle, slots + [Some(h)], clones + [h])
  {
    NamedSnoc(slots, Some(h));
  }

  // ---------------------------------------------------------------------------------------------
  // What plugins answered
  // ---------------------------------------------------------------------------------------------

  // One try of try_open_file that comes to nothing: the plugin cannot or does not open the path, or cannot say
  // how much there is to read.  A directory counts only when it is the whole of the path.
  ghost predicate Refused(calls: seq<Call>, entry: Entry, from: nat, to: nat, whole: bool) {
    || calls == [CanOpenCall(entry, from, to, false)]
    || calls == [CanOpenCall(entry, from, to, true), OpenCall(entry, from, to, None)]
    || exists h: HandleId, yes: bool, size: int ::
         calls == [CanOpenCall(entry, from, to, true), OpenCall(entry, from, to, Some(h)),
                   IsDirectoryCall(entry, h, yes), SizeCall(entry, h, size)] && !(yes && whole) && size < 0
  }

  ghost predicate IsDirectoryTry(calls: seq<Call>, entry: Entry, from: nat, to: nat, h: HandleId) {
    calls == [CanOpenCall(entry, from, to, true), OpenCall(entry, from, to, Some(h)), IsDirectoryCall(entry, h, true)]
  }

  // One that finds a file and reads it into a buffer.
  ghost predicate IsFileTry(calls: seq<Call>, entry: Entry, from: nat, to: nat, whole: bool, h: HandleId, b: BufferId,
                            complete: bool)
  {
    exists yes: bool, size: nat, bytesRead: int ::
      calls == [CanOpenCall(entry, from, to, true), OpenCall(entry, from, to, Some(h)), IsDirectoryCall(entry, h, yes),
                SizeCall(entry, h, size), ReadCall(entry, h, b, size, bytesRead)]
      && !(yes && whole) && (complete <==> bytesRead == size)
  }

  // What try_open_file tried, from the longest path to the shortest, and what came of it.
  ghost predicate Tried(tries: seq<seq<Call>>, entry: Entry, from: nat, top: nat, data: LoadData) {
    && |tries| <= (if from < top then top - from else 0)
    && (forall k | 0 <= k < |tries| - 1 :: Refused(tries[k], entry, from, top - k, k == 0))
    && match data.error
       case FileNotFound =>
         && data.handle.None? && data.data.None? && |tries| == (if from < top then top - from else 0)
         && (tries != [] ==> Refused(tries[|tries| - 1], entry, from, top - (|tries| - 1), |tries| == 1))
       case _ =>
         tries != [] &&
         var k := |tries| - 1;
         FoundAt(tries[k], entry, from, top - k, k == 0, data)
  }

  ghost predicate AllRefused(tries: seq<seq<Call>>, entry: Entry, from: nat, top: nat) {
    |tries| <= top && forall k | 0 <= k < |tries| :: Refused(tries[k], entry, from, top - k, k == 0)
  }

  lemma NoTries(entry: Entry, from: nat, top: nat)
    ensures AllRefused([], entry, from, top)
  {
  }

  lemma RefusedOn(tries: seq<seq<Call>>, entry: Entry, from: nat, top: nat, calls: seq<Call>)
    requires AllRefused(tries, entry, from, top) && |tries| < top
    requires Refused(calls, entry, from, top - |tries|, tries == [])
    ensures AllRefused(tries + [calls], entry, from, top)
  {
    hide Refused;
  }

  lemma NothingFound(tries: seq<seq<Call>>, entry: Entry, from: nat, top: nat)
    requires AllRefused(tries, entry, from, top) && |tries| == if from < top then top - from else 0
    ensures Tried(tries, entry, from, top, LoadData(None, 0, None, false, FileNotFound))
  {
    hide Refused;
  }

  // What the try of one path has found.
  ghost predicate FoundAt(calls: seq<Call>, entry: Entry, from: nat, to: nat, whole: bool, d: LoadData) {
    && d.split == to && d.handle.Some?
    && if d.isDirectory then d.error.NoError? && d.data.None? && whole
                             && IsDirectoryTry(calls, entry, from, to, d.handle.value)
       else (d.error.NoError? || d.error.InvalidFileSize?) && d.data.Some?
            && IsFileTry(calls, entry, from, to, whole, d.handle.value, d.data.value, d.error.NoError?)
  }

  lemma SomethingFound(tries: seq<seq<Call>>, entry: Entry, from: nat, top: nat, calls: seq<Call>, d: LoadData)
    requires AllRefused(tries, entry, from, top) && from < top - |tries|
    requires FoundAt(calls, entry, from, top - |tries|, tries == [], d)
    ensures Tried(tries + [calls], entry, from, top, d)
  {
    hide Refused, IsDirectoryTry, IsFileTry;
  }

  // The memory is offered to the plugins in turn, until one takes it over or calls it corrupt.
  ghost predicate Declined(calls: seq<Call>, entry: Entry, b: BufferId, corrupt: bool) {
    || (calls == [TakesMemoryCall(entry, false)] && !corrupt)
    || calls == [TakesMemoryCall(entry, true), MemoryCall(entry, b, None, corrupt)]
  }

  ghost predicate Offered(asked: seq<seq<Call>>, plugins: nat, b: BufferId, driver: Option<Driver>) {
    && |asked| <= plugins
    && (forall k: nat | k < |asked| - 1 :: Declined(asked[k], k, b, false))
    && match driver
       case None =>
         || (asked != [] && Declined(asked[|asked| - 1], |asked| - 1, b, true))
         || (|asked| == plugins && (asked != [] ==> Declined(asked[plugins - 1], plugins - 1, b, false)))
       case Some(d) =>
         asked != [] && d.entry == |asked| - 1
         && asked[d.entry] == [TakesMemoryCall(d.entry, true), MemoryCall(d.entry, b, Some(d.handle), false)]
  }

  // One container on the way: what was tried in it from segment `from` on, and what became of the file found.
  datatype Layer = Layer(entry: Entry, from: nat, tries: seq<seq<Call>>, data: LoadData, asked: seq<seq<Call>>,
                         driver: Option<Driver>)

  ghost predicate FoundFile(l: Layer) {
    l.data.error.NoError? && !l.data.isDirectory
  }

  ghost predicate LayerOk(l: Layer, plugins: nat, segments: nat) {
    && l.from < segments && Tried(l.tries, l.entry, l.from, segments, l.data)
    && if FoundFile(l) then Offered(l.asked, plugins, l.data.data.value, l.driver) else l.asked == [] && l.driver.None?
  }

  // What the resolution comes to when a layer is the last.
  function LayerResult(l: Layer): FinalDriver {
    if !l.data.error.NoError? then FinalDriver(None, None, l.data.error)
    else if l.data.isDirectory then FinalDriver(Some(l.entry), l.data.handle, NoError)
    else if l.driver.None? then FinalDriver(None, None, NotMountable)
    else FinalDriver(Some(l.driver.value.entry), Some(l.driver.value.handle), NoError)
  }

  function LayerCalls(l: Layer): seq<Call> {
    Concat(l.tries) + Concat(l.asked)
  }

  function CallsOf(layers: seq<Layer>): seq<Call> {
    if layers == [] then [] else CallsOf(layers[..|layers| - 1]) + LayerCalls(layers[|layers| - 1])
  }

  // The plugin and the segment that go on after some layers.
  ghost function EntryAfter(layers: seq<Layer>, entry: Entry): Entry {
    if layers != [] && layers[|layers| - 1].driver.Some? then layers[|layers| - 1].driver.value.entry else entry
  }

  ghost function PosAfter(layers: seq<Layer>, start: nat): nat {
    if layers == [] then start else layers[|layers| - 1].data.split
  }

  // Each layer is looked at by the plugin that has taken over the file found in the one before, from the
  // segment on that comes after that file.
  ghost predicate Chained(layers: seq<Layer>, plugins: nat, entry: Entry, start: nat, segments: nat) {
    layers == [] ||
    (var before, l := layers[..|layers| - 1], layers[|layers| - 1];
     && Chained(before, plugins, entry, start, segments) && LayerOk(l, plugins, segments)
     && (before != [] ==> FoundFile(before[|before| - 1]) && before[|before| - 1].driver.Some?)
     && l.entry == EntryAfter(before, entry) && l.from == PosAfter(before, start))
  }

  lemma ChainedOn(layers: seq<Layer>, plugins: nat, entry: Entry, start: nat, segments: nat, l: Layer)
    requires Chained(layers, plugins, entry, start, segments) && LayerOk(l, plugins, segments)
    requires layers != [] ==> FoundFile(layers[|layers| - 1]) && layers[|layers| - 1].driver.Some?
    requires l.entry == EntryAfter(layers, entry) && l.from == PosAfter(layers, start)
    ensures Chained(layers + [l], plugins, entry, start, segments)
    ensures CallsOf(layers + [l]) == CallsOf(layers) + LayerCalls(l)
  {
    hide LayerOk, FoundFile, LayerCalls;
    assert (layers + [l])[..|layers|] == layers;
  }

  // The root handle is a file: what it holds is read into buffer b and offered to the plugins.
  ghost predicate RootFile(calls: seq<Call>, plugins: nat, entry: Entry, root: HandleId, b: BufferId, r: FinalDriver) {
    || (exists size: int ::
          size < 0 && calls == [SizeCall(entry, root, size)] && r == FinalDriver(None, None, InvalidFileSize))
    || (exists size: nat, bytesRead: int ::
          && bytesRead != size && r == FinalDriver(None, None, InvalidFileSize)
          && calls == [SizeCall(entry, root, size), ReadCall(entry, root, b, size, bytesRead)])
    || (exists size: nat, asked: seq<seq<Call>>, driver: Option<Driver> ::
          && calls == [SizeCall(entry, root, size), ReadCall(entry, root, b, size, size)] + Concat(asked)
          && Offered(asked, plugins, b, driver) && r == DriverResult(driver))
  }

  function DriverResult(driver: Option<Driver>): FinalDriver {
    match driver
    case None => FinalDriver(None, None, NotMountable)
    case Some(d) => FinalDriver(Some(d.entry), Some(d.handle), NoError)
  }

  // At the end what was reached must be a directory.
  ghost predicate Checked(tail: seq<Call>, reached: FinalDriver, r: FinalDriver) {
    && reached.entry.Some? && reached.handle.Some? && |tail| == 1 && tail[0].IsDirectoryCall?
    && tail[0] == IsDirectoryCall(reached.entry.value, reached.handle.value, tail[0].yes)
    && r == if tail[0].yes then reached else FinalDriver(None, None, NotMountable)
  }

  // A path that goes on behind the root is resolved layer by layer, up to its last segment.
  ghost predicate ResolvesRest(plugins: nat, entry: Entry, start: nat, segments: nat, r: FinalDriver,
                               layers: seq<Layer>, tail: seq<Call>)
  {
    && layers != [] && Chained(layers, plugins, entry, start, segments)
    && var last := layers[|layers| - 1];
    if FoundFile(last) && last.driver.Some? then last.data.split == segments && Checked(tail, LayerResult(last), r)
    else tail == [] && r == LayerResult(last)
  }

  // A path that ends at the root: a directory is taken as it is, and a file has to be a container.
  ghost predicate ResolvesRoot(plugins: nat, entry: Entry, root: HandleId, b: BufferId, r: FinalDriver, head: seq<Call>,
                               tail: seq<Call>)
  {
    && head != [] && head[0].IsDirectoryCall? && head[0] == IsDirectoryCall(entry, root, head[0].yes)
    && if head[0].yes then |head| == 1 && Checked(tail, FinalDriver(Some(entry), Some(root), NoError), r)
       else exists taken: FinalDriver ::
              && RootFile(head[1..], plugins, entry, root, b, taken)
              && if taken.error.NoError? then Checked(tail, taken, r) else tail == [] && r == taken
  }

  // The plugins before `plugins` do not open the first `to` segments.
  function NoneOpens(plugins: nat, to: nat): seq<Call> {
    seq(plugins, e requires 0 <= e < plugins => OpenCall(e, 0, to, None))
  }

  ghost predicate RootFound(rows: seq<seq<Call>>, plugins: nat, segments: nat, driver: Option<Driver>, split: nat) {
    && |rows| <= segments && (forall k | 0 <= k < |rows| - 1 :: rows[k] == NoneOpens(plugins, segments - k))
    && match driver
       case None => |rows| == segments && (rows != [] ==> rows[segments - 1] == NoneOpens(plugins, 1))
       case Some(d) =>
         && rows != [] && split == segments - (|rows| - 1) && d.entry < plugins
         && rows[|rows| - 1] == NoneOpens(d.entry, split) + [OpenCall(d.entry, 0, split, Some(d.handle))]
  }

  // The calls that resolve what is left of a path behind its root.
  ghost predicate Resolves(plugins: nat, root: Driver, start: nat, segments: nat, r: FinalDriver, calls: seq<Call>) {
    if start < segments then
      exists layers: seq<Layer>, tail: seq<Call> ::
        calls == CallsOf(layers) + tail && ResolvesRest(plugins, root.entry, start, segments, r, layers, tail)
    else
      exists b: BufferId, head: seq<Call>, tail: seq<Call> ::
        calls == head + tail && ResolvesRoot(plugins, root.entry, root.handle, b, r, head, tail)
  }

  lemma ResolvedSo(plugins: nat, root: Driver, start: nat, segments: nat, r: FinalDriver, head: seq<Call>, b: BufferId,
                   layers: seq<Layer>, tail: seq<Call>)
    requires if start < segments then head == [] && ResolvesRest(plugins, root.entry, start, segments, r, layers, tail)
             else layers == [] && ResolvesRoot(plugins, root.entry, root.handle, b, r, head, tail)
    ensures Resolves(plugins, root, start, segments, r, head + CallsOf(layers) + tail)
  {
    hide ResolvesRest, ResolvesRoot;
    assert start < segments ==> head + CallsOf(layers) == CallsOf(layers);
    assert start >= segments ==> head + CallsOf(layers) == head;
  }

  // A mount finds the root, and resolves the rest of the path from it.
  ghost predicate Mounts(plugins: nat, segments: nat, r: FinalDriver, rows: seq<seq<Call>>, calls: seq<Call>) {
    exists root: Option<Driver>, split: nat ::
      && RootFound(rows, plugins, segments, root, split)
      && match root
         case None => r == FinalDriver(None, None, NoDriver) && calls == []
         case Some(d) => Resolves(plugins, d, split, segments, r, calls)
  }

  function CloneCalls(entry: Entry, handle: HandleId, answers: seq<Option<HandleId>>): seq<Call> {
    seq(|answers|, i requires 0 <= i < |answers| => CloneCall(entry, handle, answers[i]))
  }

  function Slots(handles: seq<HandleId>): seq<Option<HandleId>> {
    seq(|handles|, i requires 0 <= i < |handles| => Some(handles[i]))
  }

  // On the way: the container that has been reached, and where.
  ghost predicate Underway(plugins: nat, entry: Entry, start: nat, segments: nat, pos: nat, r: FinalDriver,
                           layers: seq<Layer>)
  {
    && Chained(layers, plugins, entry, start, segments)
    && pos == PosAfter(layers, start) && r.entry == Some(EntryAfter(layers, entry))
    && (layers != [] ==>
          var last := layers[|layers| - 1];
          FoundFile(last) && last.driver.Some? && r == LayerResult(last) && pos <= segments)
  }

  lemma AtTheRoot(plugins: nat, entry: Entry, root: HandleId, start: nat, segments: nat)
    ensures Underway(plugins, entry, start, segments, start, FinalDriver(Some(entry), Some(root), NoError), [])
  {
  }

  lemma UnderwayIs(plugins: nat, entry: Entry, start: nat, segments: nat, pos: nat, r: FinalDriver, layers: seq<Layer>)
    requires Underway(plugins, entry, start, segments, pos, r, layers)
    ensures r.entry.Some? && (layers != [] ==> pos <= segments)
  {
  }

  lemma AllResolved(plugins: nat, entry: Entry, start: nat, segments: nat, pos: nat, reached: FinalDriver,
                    layers: seq<Layer>, r: FinalDriver, tail: seq<Call>)
    requires Underway(plugins, entry, start, segments, pos, reached, layers) && start < segments <= pos
    requires Checked(tail, reached, r)
    ensures ResolvesRest(plugins, entry, start, segments, r, layers, tail)
  {
    hide Chained, LayerResult, Checked;
  }

  lemma UnderwayOn(plugins: nat, entry: Entry, start: nat, segments: nat, pos: nat, r: FinalDriver, layers: seq<Layer>,
                   l: Layer)
    requires Underway(plugins, entry, start, segments, pos, r, layers) && LayerOk(l, plugins, segments)
    requires l.entry == r.entry.value && l.from == pos
    ensures CallsOf(layers + [l]) == CallsOf(layers) + LayerCalls(l)
    ensures l.driver.None? ==> ResolvesRest(plugins, entry, start, segments, LayerResult(l), layers + [l], [])
    ensures l.driver.Some? && FoundFile(l) && l.data.split <= segments ==>
              Underway(plugins, entry, start, segments, l.data.split, LayerResult(l), layers + [l])
  {
    hide LayerOk, Chained, LayerCalls;
    ChainedOn(layers, plugins, entry, start, segments, l);
  }

  // The plugins and the memory allocator.
  class Plugins {
    var live: map<HandleId, Opened>      // the handles that are open
    var mine: set<BufferId>              // the buffers that no plugin has taken over
    var nextHandle: HandleId
    var nextBuffer: BufferId
    ghost var closed: set<HandleId>
    ghost var freed: set<BufferId>
    ghost var log: seq<Call>             // what the plugins were asked so far

    // Every handle ever opened is open or closed; every buffer ever allocated is ours, freed, or owned
    // by exactly one open handle.
    ghost predicate Valid()
      reads this
    {
      && (forall h: HandleId :: (h in live || h in closed) <==> h < nextHandle)
      && (forall h: HandleId :: !(h in live && h in closed))
      && (forall b: BufferId :: (b in mine || b in freed || IsOwned(live, b)) <==> b < nextBuffer)
      && (forall b: BufferId :: !(b in mine && b in freed))
      && (forall b: BufferId, h: HandleId :: Owns(live, h, b) ==> b !in mine && b !in freed)
      && (forall b: BufferId, h: HandleId, k: HandleId :: Owns(live, h, b) && Owns(live, k, b) ==> h == k)
    }

    // Nothing opened or freed is forgotten.
    twostate predicate Grows()
      reads this
    {
      old(closed) <= closed && old(freed) <= freed && old(nextHandle) <= nextHandle
    }

    method CanOpen(entry: Entry, from: nat, to: nat) returns (yes: bool)
      requires Valid()
      modifies this`log
      ensures Valid() && log == old(log) + [CanOpenCall(entry, from, to, yes)]
    {
      yes := *;
      Note(CanOpenCall(entry, from, to, yes));
    }

    method IsDirectory(entry: Entry, h: HandleId) returns (yes: bool)
      requires Valid() && h in live && live[h].entry == entry
      modifies this`log
      ensures Valid() && log == old(log) + [IsDirectoryCall(entry, h, yes)]
    {
      yes := *;
      Note(IsDirectoryCall(entry, h, yes));
    }

    method GetSize(entry: Entry, h: HandleId) returns (size: int)
      requires Valid() && h in live && live[h].entry == entry
      modifies this`log
      ensures Valid() && log == old(log) + [SizeCall(entry, h, size)]
    {
      size := *;
      Note(SizeCall(entry, h, size));
    }

    method Read(entry: Entry, h: HandleId, b: BufferId, size: nat) returns (bytesRead: int)
      requires Valid() && h in live && live[h].entry == entry && b in mine
      modifies this`log
      ensures Valid() && log == old(log) + [ReadCall(entry, h, b, size, bytesRead)]
    {
      bytesRead := *;
      Note(ReadCall(entry, h, b, size, bytesRead));
    }

    method TakesMemory(entry: Entry) returns (yes: bool)
      requires Valid()
      modifies this`log
      ensures Valid() && log == old(log) + [TakesMemoryCall(entry, yes)]
    {
      yes := *;
      Note(TakesMemoryCall(entry, yes));
    }

    // A handle that was not open before, or none.
    method NewHandle(entry: Entry, memory: Option<BufferId>) returns (h: HandleId)
      requires Valid() && (memory.Some? ==> memory.value in mine)
      modifies this`live, this`mine, this`nextHandle
      ensures Valid() && Grows() && h !in old(live) && live == old(live)[h := Opened(entry, memory)]
      ensures mine == old(mine) - if memory.Some? then {memory.value} else {}
    {
      hide Owns, IsOwned;
      h := nextHandle;
      var now := live[h := Opened(entry, memory)];
      OwnersOpen(live, now, h, memory);
      live := now;
      if memory.Some? { mine := mine - {memory.value}; }
      nextHandle := nextHandle + 1;
    }

    method Open(entry: Entry, from: nat, to: nat) returns (h: Option<HandleId>)
      requires Valid()
      modifies this
      ensures Valid() && Grows() && mine == old(mine) && closed == old(closed)
      ensures log == old(log) + [OpenCall(entry, from, to, h)]
      ensures h.None? ==> live == old(live)
      ensures h.Some? ==> h.value !in old(live) && live == old(live)[h.value := Opened(entry, None)]
    {
      hide Valid;
      h := None;
      if * {
        var k := NewHandle(entry, None);
        h := Some(k);
      }
      Note(OpenCall(entry, from, to, h));
    }

    ghost method Note(call: Call)
      requires Valid()
      modifies this`log
      ensures Valid() && log == old(log) + [call]
    {
      log := log + [call];
    }

    // A plugin that opens the memory takes it over; otherwise it stays ours.
    method OpenMemory(entry: Entry, b: BufferId) returns (h: Option<HandleId>, corrupt: bool)
      requires Valid() && b in mine
      modifies this
      ensures Valid() && Grows() && closed == old(closed)
      ensures log == old(log) + [MemoryCall(entry, b, h, corrupt)] && (h.Some? ==> !corrupt)
      ensures h.None? ==> live == old(live) && mine == old(mine)
      ensures h.Some? ==>
        h.value !in old(live) && live == old(live)[h.value := Opened(entry, Some(b))] && mine == old(mine) - {b}
    {
      hide Valid;
      h, corrupt := None, *;
      if * {
        var k := NewHandle(entry, Some(b));
        h, corrupt := Some(k), false;
      }
      Note(MemoryCall(entry, b, h, corrupt));
    }

    // A copy of the handle for another thread; a plugin may also share the handle itself, or give out again
    // one of the copies that it has made.
    method Clone(entry: Entry, from: HandleId, made: seq<HandleId>) returns (h: Option<HandleId>)
      requires Valid() && from in live && live[from].entry == entry
      requires forall k :: k in made ==> k in live && live[k].entry == entry
      modifies this
      ensures Valid() && Grows() && mine == old(mine) && closed == old(closed)
      ensures log == old(log) + [CloneCall(entry, from, h)]
      ensures h.None? || h.value == from || h.value in made ==> live == old(live)
      ensures h.Some? && h.value != from && h.value !in made ==>
        h.value !in old(live) && live == old(live)[h.value := Opened(entry, None)]
    {
      hide Valid;
      h := None;
      var again: int := *;
      if * {
        h := Some(from);
      } else if 0 <= again < |made| {
        h := Some(made[again]);
      } else if * {
        var k := NewHandle(entry, None);
        h := Some(k);
      }
      Note(CloneCall(entry, from, h));
    }

    lemma OpenIsNotClosed(h: HandleId)
      requires Valid() && h in live
      ensures h !in closed
    {
    }

    method Close(entry: Entry, h: HandleId)
      requires Valid() && h in live && live[h].entry == entry
      modifies this
      ensures Valid() && Grows() && mine == old(mine)
      ensures live == old(live) - {h} && closed == old(closed) + {h} && log == old(log)
      ensures freed == old(freed) + if old(live)[h].memory.Some? then {old(live)[h].memory.value} else {}
    {
      hide Owns, IsOwned;
      ghost var memory := live[h].memory;
      if memory.Some? { MemoryIsOwned(live, h); }
      OwnersClose(live, h);
      live := live - {h};
      closed := closed + {h};
      freed := freed + if memory.Some? then {memory.value} else {};
    }

    method Malloc() returns (b: BufferId)
      requires Valid()
      modifies this
      ensures Valid() && Grows() && live == old(live) && closed == old(closed) && log == old(log)
      ensures b !in old(mine) && mine == old(mine) + {b}
    {
      b := nextBuffer;
      mine := mine + {b};
      nextBuffer := nextBuffer + 1;
    }

    method Free(b: BufferId)
      requires Valid() && b in mine
      modifies this
      ensures Valid() && Grows() && live == old(live) && closed == old(closed) && log == old(log)
      ensures mine == old(mine) - {b} && freed == old(freed) + {b}
    {
      mine := mine - {b};
      freed := freed + {b};
    }

    // load_data_from_plugin: the buffer is handed on even when the read came short.
    method LoadDataFromPlugin(entry: Entry, h: HandleId, size: nat, split: nat)
      returns (data: LoadData, ghost call: Call)
      requires Valid() && h in live && live[h].entry == entry
      modifies this
      ensures Valid() && Grows() && live == old(live) && closed == old(closed)
      ensures data.handle == Some(h) && data.split == split && !data.isDirectory && data.data.Some?
      ensures data.data.value !in old(mine) && mine == old(mine) + {data.data.value}
      ensures log == old(log) + [call]
      ensures call.ReadCall? && call == ReadCall(entry, h, data.data.value, size, call.bytesRead)
      ensures data.error == if call.bytesRead == size then NoError else InvalidFileSize
    {
      hide Valid;
      var b := Malloc();
      var bytesRead := Read(entry, h, b, size);
      call := ReadCall(entry, h, b, size, bytesRead);
      data := LoadData(Some(h), split, Some(b), false, if bytesRead == size then NoError else InvalidFileSize);
    }

    // One path of try_open_file; None when it comes to nothing.
    method TryOne(entry: Entry, from: nat, to: nat, whole: bool)
      returns (data: Option<LoadData>, ghost calls: seq<Call>)
      requires Valid()
      modifies this
      ensures Valid() && Grows() && old(mine) <= mine && log == old(log) + calls
      ensures data.None? ==> live == old(live) && mine == old(mine) && Refused(calls, entry, from, to, whole)
      ensures data.Some? ==>
        var d := data.value;
        && FoundAt(calls, entry, from, to, whole, d) && d.handle.value !in old(live)
        && live == old(live)[d.handle.value := Opened(entry, None)]
        && if d.isDirectory then mine == old(mine)
           else d.data.value !in old(mine) && mine == old(mine) + {d.data.value}
    {
      hide Valid;
      data := None;
      var canOpen := CanOpen(entry, from, to);
      calls := [CanOpenCall(entry, from, to, canOpen)];
      if !canOpen { return; }
      var h := Open(entry, from, to);
      calls := calls + [OpenCall(entry, from, to, h)];
      if h.None? { return; }
      var isDirectory := IsDirectory(entry, h.value);
      calls := calls + [IsDirectoryCall(entry, h.value, isDirectory)];
      if isDirectory && whole {
        return Some(LoadData(h, to, None, true, NoError)), calls;
      }
      var size := GetSize(entry, h.value);
      calls := calls + [SizeCall(entry, h.value, size)];
      if size < 0 {
        Close(entry, h.value);
        assert live == old(live);
        return;
      }
      var loaded;
      ghost var call;
      loaded, call := LoadDataFromPlugin(entry, h.value, size, to);
      data, calls := Some(loaded), calls + [call];
    }

    // try_open_file: from the longest rest of the path to the shortest.
    method TryOpenFile(entry: Entry, top: nat, from: nat, segments: nat)
      returns (data: LoadData, ghost tries: seq<seq<Call>>)
      requires Valid()
      modifies this
      ensures Valid() && Grows() && old(mine) <= mine && log == old(log) + Concat(tries)
      ensures if segments == 0 then data.error.InvalidPath? && data.handle.None? && data.data.None? && tries == []
              else Tried(tries, entry, from, top, data)
      ensures data.handle.None? ==> live == old(live) && data.data.None?
      ensures data.handle.Some? ==>
                data.handle.value !in old(live) && live == old(live)[data.handle.value := Opened(entry, None)]
      ensures data.data.None? ==> mine == old(mine)
      ensures data.data.Some? ==> data.data.value !in old(mine) && mine == old(mine) + {data.data.value}
    {
      hide Valid, Refused, IsFileTry, IsDirectoryTry, Tried, AllRefused;
      tries := [];
      if segments == 0 { return LoadData(None, 0, None, false, InvalidPath), []; }
      NoTries(entry, from, top);
      var try := top;
      while try > from
        invariant Valid() && Grows() && live == old(live) && mine == old(mine) && log == old(log) + Concat(tries)
        invariant try <= top && |tries| == top - try && (|tries| == 0 || from <= try)
        invariant AllRefused(tries, entry, from, top)
        decreases try
      {
        ghost var calls;
        var found;
        found, calls := TryOne(entry, from, try, try == top);
        ConcatSnoc(tries, calls);
        if found.Some? {
          SomethingFound(tries, entry, from, top, calls, found.value);
          return found.value, tries + [calls];
        }
        RefusedOn(tries, entry, from, top, calls);
        tries := tries + [calls];
        try := try - 1;
      }
      NothingFound(tries, entry, from, top);
      data := LoadData(None, 0, None, false, FileNotFound);
    }

    // vfs_tree_find_plugin_for_memory: a plugin that calls the archive corrupt ends the search.
    method FindPluginForMemory(plugins: nat, b: BufferId)
      returns (driver: Option<Driver>, ghost asked: seq<seq<Call>>)
      requires Valid() && b in mine
      modifies this
      ensures Valid() && Grows() && closed == old(closed) && log == old(log) + Concat(asked)
      ensures Offered(asked, plugins, b, driver)
      ensures driver.None? ==> live == old(live) && mine == old(mine)
      ensures driver.Some? ==> var d := driver.value;
                d.handle !in old(live) && live == old(live)[d.handle := Opened(d.entry, Some(b))]
                  && mine == old(mine) - {b}
    {
      hide Valid;
      asked := [];
      for entry := 0 to plugins
        invariant Valid() && Grows() && live == old(live) && mine == old(mine) && closed == old(closed)
        invariant log == old(log) + Concat(asked) && |asked| == entry
        invariant forall k: nat | k < |asked| :: Declined(asked[k], k, b, false)
      {
        var takesMemory := TakesMemory(entry);
        if !takesMemory {
          ConcatSnoc(asked, [TakesMemoryCall(entry, false)]);
          asked := asked + [[TakesMemoryCall(entry, false)]];
          continue;
        }
        var h, corrupt := OpenMemory(entry, b);
        ConcatSnoc(asked, [TakesMemoryCall(entry, true), MemoryCall(entry, b, h, corrupt)]);
        asked := asked + [[TakesMemoryCall(entry, true), MemoryCall(entry, b, h, corrupt)]];
        if h.Some? { return Some(Driver(entry, h.value)), asked; }
        if corrupt { return None, asked; }
      }
      driver := None;
    }

    // The special case at the head of vfs_tree_resolve_full_path: the root handle is itself a file.  What it
    // holds is read and offered to the plugins.
    method OpenRootFile(plugins: nat, entry: Entry, root: HandleId, segments: nat)
      returns (r: FinalDriver, ghost calls: seq<Call>, ghost b: BufferId)
      requires Valid() && root in live && live[root].entry == entry
      modifies this
      ensures Valid() && Grows() && mine == old(mine) && Settles(old(live), live, root, r)
      ensures log == old(log) + calls && RootFile(calls, plugins, entry, root, b, r)
      ensures r.error.NoError? ==> r.handle.value !in old(live) && live[r.handle.value].memory == Some(b)
    {
      hide Valid, Offered;
      b := 0;
      var size := GetSize(entry, root);
      calls := [SizeCall(entry, root, size)];
      if size < 0 {
        Close(entry, root);
        return FinalDriver(None, None, InvalidFileSize), calls, b;
      }
      ghost var call;
      var data;
      data, call := LoadDataFromPlugin(entry, root, size, segments);
      calls := calls + [call];
      var buffer := data.data.value;
      b := buffer;
      if data.error != NoError {
        Free(buffer);
        Close(entry, root);
        return FinalDriver(None, None, data.error), calls, b;
      }
      ghost var asked;
      var memory;
      memory, asked := FindPluginForMemory(plugins, buffer);
      calls := calls + Concat(asked);
      if memory.None? {
        Free(buffer);
        Close(entry, root);
        return FinalDriver(None, None, NotMountable), calls, b;
      }
      Close(entry, root);
      return FinalDriver(Some(memory.value.entry), Some(memory.value.handle), NoError), calls, b;
    }

    // What try_open_file left open when it failed, as after a short read.
    method DropLoaded(data: LoadData, entry: Entry, ghost was: map<HandleId, Opened>, ghost wereMine: set<BufferId>)
      requires Valid()
      requires if data.handle.None? then live == was
               else data.handle.value !in was && live == was[data.handle.value := Opened(entry, None)]
      requires if data.data.None? then mine == wereMine
               else data.data.value !in wereMine && mine == wereMine + {data.data.value}
      modifies this
      ensures Valid() && Grows() && live == was && mine == wereMine && log == old(log)
    {
      hide Valid;
      if data.handle.Some? { Close(entry, data.handle.value); }
      if data.data.Some? { Free(data.data.value); }
    }

    // One layer: what is found becomes the current container, or ends the resolution.
    method ResolveLayer(plugins: nat, entry: Entry, handle: HandleId, pos: nat, segments: nat)
      returns (r: FinalDriver, done: bool, split: nat, ghost layer: Layer)
      requires Valid() && handle in live && live[handle].entry == entry && pos < segments
      modifies this
      ensures Valid() && Grows() && mine == old(mine) && Settles(old(live), live, handle, r)
      ensures layer.entry == entry && layer.from == pos && LayerOk(layer, plugins, segments)
      ensures log == old(log) + LayerCalls(layer)
      ensures r == LayerResult(layer)
      ensures r.error.NoError? ==> r.handle.value !in old(live) && live[r.handle.value].memory == layer.data.data
      ensures (done <==> layer.driver.None?) && (!done ==> r.error.NoError?) && handle in closed
      ensures !done ==> FoundFile(layer) && pos < split == layer.data.split <= segments
    {
      hide Valid, Owns, Refused, IsFileTry, IsDirectoryTry, Declined, Offered;
      split := 0;
      var data;
      ghost var tries;
      data, tries := TryOpenFile(entry, segments, pos, segments);
      layer := Layer(entry, pos, tries, data, [], None);
      if data.error != NoError {
        DropLoaded(data, entry, old(live), old(mine));
        Close(entry, handle);
        return FinalDriver(None, None, data.error), true, 0, layer;
      }
      if data.isDirectory {
        Close(entry, handle);
        return FinalDriver(Some(entry), data.handle, NoError), true, 0, layer;
      }
      var b := data.data.value;
      var memory;
      ghost var asked;
      memory, asked := FindPluginForMemory(plugins, b);
      layer := Layer(entry, pos, tries, data, asked, memory);
      Close(entry, data.handle.value);
      Close(entry, handle);
      if memory.None? {
        Free(b);
        return FinalDriver(None, None, NotMountable), true, 0, layer;
      }
      return FinalDriver(Some(memory.value.entry), Some(memory.value.handle), NoError), false, data.split, layer;
    }

    // vfs_tree_resolve_full_path
    method ResolveFullPath(plugins: nat, rootEntry: Entry, root: HandleId, start: nat, segments: nat)
      returns (r: FinalDriver, ghost head: seq<Call>, ghost b: BufferId, ghost layers: seq<Layer>,
               ghost tail: seq<Call>)
      requires Valid() && root in live && live[root].entry == rootEntry
      modifies this
      ensures Valid() && Grows() && mine == old(mine) && Settles(old(live), live, root, r)
      ensures log == old(log) + head + CallsOf(layers) + tail
      ensures if start < segments then head == [] && ResolvesRest(plugins, rootEntry, start, segments, r, layers, tail)
              else layers == [] && ResolvesRoot(plugins, rootEntry, root, b, r, head, tail)
      ensures start < segments && r.error.NoError? ==>
                r.handle.value != root && live[r.handle.value].memory == layers[|layers| - 1].data.data
      ensures start >= segments && r.error.NoError? && r.handle.value != root ==> live[r.handle.value].memory == Some(b)
    {
      hide Valid;
      head, layers, tail := [], [], [];
      if start >= segments {
        r, head, b, tail := ResolveRoot(plugins, rootEntry, root, segments);
      } else {
        b := 0;
        r, layers, tail := ResolveRest(plugins, rootEntry, root, start, segments);
      }
    }

    // Nothing is left of the path: the root is the end of it, or a file that may be a container.
    method ResolveRoot(plugins: nat, rootEntry: Entry, root: HandleId, segments: nat)
      returns (r: FinalDriver, ghost head: seq<Call>, ghost b: BufferId, ghost tail: seq<Call>)
      requires Valid() && root in live && live[root].entry == rootEntry
      modifies this
      ensures Valid() && Grows() && mine == old(mine) && Settles(old(live), live, root, r)
      ensures log == old(log) + head + tail && ResolvesRoot(plugins, rootEntry, root, b, r, head, tail)
      ensures r.error.NoError? && r.handle.value != root ==> live[r.handle.value].memory == Some(b)
    {
      hide Valid, RootFile;
      b, tail := 0, [];
      r := FinalDriver(Some(rootEntry), Some(root), NoError);
      var isDirectory := IsDirectory(rootEntry, root);
      head := [IsDirectoryCall(rootEntry, root, isDirectory)];
      if !isDirectory {
        ghost var calls;
        r, calls, b := OpenRootFile(plugins, rootEntry, root, segments);
        assert ([IsDirectoryCall(rootEntry, root, isDirectory)] + calls)[1..] == calls;
        head := head + calls;
        if r.error != NoError { return; }
      }
      ghost var mid, reached := live, r;
      r, tail := CheckDirectory(r);
      SettlesInTurn(old(live), mid, live, root, reached, r);
    }

    // All segments have been processed: what was reached must be a directory.
    method CheckDirectory(reached: FinalDriver) returns (r: FinalDriver, ghost tail: seq<Call>)
      requires Valid() && reached.error.NoError? && reached.entry.Some? && reached.handle.Some?
      requires reached.handle.value in live && live[reached.handle.value].entry == reached.entry.value
      modifies this
      ensures Valid() && Grows() && mine == old(mine) && log == old(log) + tail && Checked(tail, reached, r)
      ensures Settles(old(live), live, reached.handle.value, r)
      ensures r.error.NoError? ==> live == old(live)
    {
      hide Valid;
      var isDirectory := IsDirectory(reached.entry.value, reached.handle.value);
      tail := [IsDirectoryCall(reached.entry.value, reached.handle.value, isDirectory)];
      r := reached;
      if !isDirectory {
        Close(reached.entry.value, reached.handle.value);
        r := FinalDriver(None, None, NotMountable);
      }
    }

    // The loop over the layers.
    method ResolveRest(plugins: nat, rootEntry: Entry, root: HandleId, start: nat, segments: nat)
      returns (r: FinalDriver, ghost layers: seq<Layer>, ghost tail: seq<Call>)
      requires Valid() && root in live && live[root].entry == rootEntry && start < segments
      modifies this
      ensures Valid() && Grows() && mine == old(mine) && Settles(old(live), live, root, r)
      ensures log == old(log) + CallsOf(layers) + tail
      ensures ResolvesRest(plugins, rootEntry, start, segments, r, layers, tail)
      ensures r.error.NoError? ==>
                r.handle.value != root && live[r.handle.value].memory == layers[|layers| - 1].data.data
    {
      hide Valid, LayerOk, FoundFile, Chained, LayerCalls, LayerResult, Underway, ResolvesRest, Checked;
      var pos := start;
      layers, tail := [], [];
      r := FinalDriver(Some(rootEntry), Some(root), NoError);
      AtTheRoot(plugins, rootEntry, root, start, segments);
      while pos < segments
        invariant Valid() && Grows() && mine == old(mine) && Settles(old(live), live, root, r) && r.error.NoError?
        invariant log == old(log) + CallsOf(layers)
        invariant Underway(plugins, rootEntry, start, segments, pos, r, layers)
        invariant pos > start ==>
          layers != [] && r.handle.value != root && live[r.handle.value].memory == layers[|layers| - 1].data.data
        invariant start <= pos && (pos > start ==> root in closed) && (pos == start ==> r.handle.value == root)
        decreases segments - pos
      {
        ghost var mid := live;
        var next, done, split;
        ghost var layer;
        UnderwayIs(plugins, rootEntry, start, segments, pos, r, layers);
        next, done, split, layer := ResolveLayer(plugins, r.entry.value, r.handle.value, pos, segments);
        UnderwayOn(plugins, rootEntry, start, segments, pos, r, layers, layer);
        SettlesInTurn(old(live), mid, live, root, r, next);
        layers := layers + [layer];
        r := next;
        if r.handle.Some? { OpenIsNotClosed(r.handle.value); }
        if done { return; }
        pos := split;
      }
      ghost var mid, reached := live, r;
      UnderwayIs(plugins, rootEntry, start, segments, pos, r, layers);
      r, tail := CheckDirectory(r);
      SettlesInTurn(old(live), mid, live, root, reached, r);
      AllResolved(plugins, rootEntry, start, segments, pos, reached, layers, r, tail);
    }

    // vfs_tree_find_root_plugin_for_path: the longest path first, and for each path the plugins in turn.
    method FindRoot(plugins: nat, segments: nat)
      returns (driver: Option<Driver>, split: nat, ghost rows: seq<seq<Call>>)
      requires Valid()
      modifies this
      ensures Valid() && Grows() && mine == old(mine) && log == old(log) + Concat(rows)
      ensures RootFound(rows, plugins, segments, driver, split)
      ensures driver.None? ==> live == old(live)
      ensures driver.Some? ==>
        driver.value.handle !in old(live) && live == old(live)[driver.value.handle := Opened(driver.value.entry, None)]
    {
      hide Valid;
      split, rows := segments, [];
      while split > 0
        invariant Valid() && Grows() && live == old(live) && mine == old(mine)
        invariant split <= segments && |rows| == segments - split && log == old(log) + Concat(rows)
        invariant forall k | 0 <= k < |rows| :: rows[k] == NoneOpens(plugins, segments - k)
      {
        ghost var before := log;
        for entry := 0 to plugins
          invariant Valid() && Grows() && live == old(live) && mine == old(mine)
          invariant log == before + NoneOpens(entry, split)
        {
          var h := Open(entry, 0, split);
          if h.Some? {
            ghost var row := NoneOpens(entry, split) + [OpenCall(entry, 0, split, h)];
            ConcatSnoc(rows, row);
            return Some(Driver(entry, h.value)), split, rows + [row];
          }
          assert NoneOpens(entry + 1, split) == NoneOpens(entry, split) + [OpenCall(entry, 0, split, None)];
        }
        ConcatSnoc(rows, NoneOpens(plugins, split));
        rows := rows + [NoneOpens(plugins, split)];
        split := split - 1;
      }
      driver := None;
    }

    // vfs_tree_mount_path: what is live afterwards is what was, and the handle that is returned.
    method MountPath(plugins: nat, segments: nat)
      returns (r: FinalDriver, ghost rows: seq<seq<Call>>, ghost calls: seq<Call>)
      requires Valid()
      modifies this
      ensures Valid() && Grows() && mine == old(mine) && log == old(log) + Concat(rows) + calls
      ensures Mounts(plugins, segments, r, rows, calls)
      ensures (r.error.NoError? <==> r.handle.Some?) && (r.handle.Some? <==> r.entry.Some?)
      ensures r.handle.None? ==> live == old(live)
      ensures r.handle.Some? ==>
                && r.handle.value !in old(live) && r.handle.value in live
                && live[r.handle.value].entry == r.entry.value && live - {r.handle.value} == old(live)
    {
      hide Valid, RootFound, ResolvesRest, ResolvesRoot;
      calls := [];
      var root, split;
      root, split, rows := FindRoot(plugins, segments);
      if root.None? { return FinalDriver(None, None, NoDriver), rows, []; }
      ghost var before := live;
      ghost var head, b, layers, tail;
      r, head, b, layers, tail := ResolveFullPath(plugins, root.value.entry, root.value.handle, split, segments);
      calls := head + CallsOf(layers) + tail;
      ResolvedSo(plugins, root.value, split, segments, r, head, b, layers, tail);
      assert before - {root.value.handle} == old(live);
    }

    // The closing loop of vfs_tree_clone_plugin_handle: every clone is closed once for every slot it is in.
    // `again` says that a handle was closed that had been closed before.
    method CloseClones(entry: Entry, made: seq<HandleId>) returns (again: bool)
      requires Valid() && forall h :: h in made ==> h in live && live[h].entry == entry
      modifies this
      ensures Valid() && Grows() && mine == old(mine) && log == old(log)
      ensures live == old(live) - (set h | h in made)
      ensures again <==> exists i, j :: 0 <= i < j < |made| && made[i] == made[j]
    {
      hide Valid;
      again := false;
      ghost var all := live;
      for j := 0 to |made|
        invariant Valid() && Grows() && mine == old(mine) && log == old(log)
        invariant live == all - (set h | h in made[..j])
        invariant again <==> exists i, k :: 0 <= i < k < j && made[i] == made[k]
      {
        assert made[j] in made;
        assert made[..j + 1] == made[..j] + [made[j]];
        assert made[j] in live <==> made[j] !in made[..j];
        if made[j] in live {
          Close(entry, made[j]);
        } else {
          again := true;
        }
      }
      assert made[..|made|] == made;
    }

    // vfs_tree_clone_plugin_handle: one handle for every worker, or none at all.  On a failure the clones
    // that were made are closed.  The given handle then stays open unless the plugin shared it, and no
    // handle is closed twice unless it shared one twice; with two workers no clone has been made by then.
    method CloneHandles(entry: Entry, handle: HandleId, threads: nat)
      returns (handles: seq<Option<HandleId>>, ghost made: seq<HandleId>, again: bool)
      requires Valid() && handle in live && live[handle].entry == entry && 1 <= threads
      modifies this
      ensures Valid() && Grows() && mine == old(mine) && |handles| == threads
      ensures handles[0].Some? ==>
                && handles[0].value == handle && OpenedBy(live, entry, handles) && !again
                && live - Named(handles) == old(live) - {handle}
                && (forall i :: 0 <= i < |handles| ==> handles[i].Some?)
                && log == old(log) + CloneCalls(entry, handle, handles[1..])
      ensures handles[0].None? ==>
                && log == old(log) + CloneCalls(entry, handle, Slots(made)) + [CloneCall(entry, handle, None)]
                && (forall i :: 0 <= i < |handles| ==> handles[i].None?)
                && live == (if handle in made then old(live) - {handle} else old(live))
                && (again <==> exists i, j :: 0 <= i < j < |made| && made[i] == made[j])
                && |made| + 1 < threads
    {
      hide Valid;
      made, again := [], false;
      var slots: seq<Option<HandleId>> := [Some(handle)];
      var clones: seq<HandleId> := [];
      for i := 1 to threads
        invariant Valid() && Grows() && mine == old(mine) && |slots| == i && !again
        invariant Cloning(old(live), live, entry, handle, slots, clones)
        invariant slots[1..] == Slots(clones) && log == old(log) + CloneCalls(entry, handle, slots[1..])
      {
        ghost var before := live;
        var h := Clone(entry, handle, clones);
        if h.None? {
          made := clones;
          again := CloseClones(entry, clones);
          handles := seq(threads, _ => None);
          return;
        }
        CloningOn(old(live), before, live, entry, handle, slots, clones, h.value);
        assert CloneCalls(entry, handle, (slots + [h])[1..])
            == CloneCalls(entry, handle, slots[1..]) + [CloneCall(entry, handle, h)];
        slots := slots + [h];
        clones := clones + [h.value];
      }
      handles := slots;
    }

    // close_node_resources: slots may share a handle, which is then closed once.
    method CloseNodeResources(node: Node)
      requires Valid() && (node.entry.Some? ==> OpenedBy(live, node.entry.value, node.handles))
      modifies this, node
      ensures Valid() && Grows() && mine == old(mine)
      ensures node.entry == old(node.entry) && |node.handles| == |old(node.handles)|
      ensures live == if node.entry.Some? then old(live) - Named(old(node.handles)) else old(live)
      ensures node.entry.Some? ==> forall i :: 0 <= i < |node.handles| ==> node.handles[i].None?
    {
      hide Valid;
      if node.entry.None? { return; }
      ghost var was := node.handles;
      ghost var all := live;
      var done: set<HandleId> := {};
      assert Named(was[..0]) == {};
      for i := 0 to |node.handles|
        invariant |node.handles| == |was| && node.entry == old(node.entry)
        invariant forall k :: 0 <= k < |was| ==> node.handles[k] == if k < i then None else was[k]
        invariant Valid() && Grows() && mine == old(mine)
        invariant done == Named(was[..i]) && live == all - done
      {
        assert was[..i + 1] == was[..i] + [was[i]];
        NamedSnoc(was[..i], was[i]);
        if node.handles[i].Some? {
          var h := node.handles[i].value;
          if h !in done {
            Close(node.entry.value, h);
            done := done + {h};
          }
          node.handles := node.handles[i := None];
        }
      }
      assert was[..|was|] == was;
    }

    // vfs_op_mount: the node gets the handles it can use, and nothing else stays open.
    method OpMount(plugins: nat, segments: nat, node: Node)
      returns (ghost r: FinalDriver, ghost rows: seq<seq<Call>>, ghost calls: seq<Call>, ghost clones: seq<Call>)
      requires Valid()
      modifies this, node
      ensures Valid() && Grows() && mine == old(mine) && |node.handles| == MAX_JOB_THREADS
      ensures node.entry.Some? ==> OpenedBy(live, node.entry.value, node.handles)
      ensures live - Named(node.handles) == old(live)
      ensures log == old(log) + Concat(rows) + calls + clones && Mounts(plugins, segments, r, rows, calls)
      ensures node.entry == (if r.error.NoError? then r.entry else None)
      ensures if r.error.NoError? then
                r.handle.Some? && r.entry.Some?
                && clones == [CloneCall(r.entry.value, r.handle.value, node.handles[1])]
                && node.handles[0] == if node.handles[1].Some? then r.handle else None
              else clones == [] && node.handles == [None, None]
    {
      hide Valid, Mounts;
      clones := [];
      var found;
      found, rows, calls := MountPath(plugins, segments);
      r := found;
      if found.error != NoError {
        node.entry, node.handles := None, seq(MAX_JOB_THREADS, _ => None);
        assert Named(node.handles) == {};
        return;
      }
      var handles, made, again := CloneHandles(found.entry.value, found.handle.value, MAX_JOB_THREADS);
      if handles[0].None? {
        assert made == [];
        Close(found.entry.value, found.handle.value);
        assert Named(handles) == {};
      }
      clones := [CloneCall(found.entry.value, found.handle.value, handles[1])];
      node.entry, node.handles := found.entry, handles;
    }
  }
}
