/** Lazy deserialization of one serialization context by any number of threads
    (src/6model/serialization.c, src/6model/sc.c), as a step system.  A thread makes one
    shared-memory access per step; its pending calls form a stack, since reading an item's
    references demands further items of the same context under the reentrant mutex. */
module Demand {
  import opened Wrappers

  /** A slot of the context's root lists. */
  datatype Item = Obj(i: nat) | St(i: nat)

  /** What the serialized tables say: an object's STable (if it is in this context), where
      its data starts and the same-context references in it; for an STable, the STables its
      size computation demands and the references in its data (the lazily read HOW left out). */
  datatype ObjRow = ObjRow(stable: Option<nat>, offset: nat, refs: seq<Item>)
  datatype StRow = StRow(sizeOffset: nat, sizeRefs: seq<nat>, offset: nat, refs: seq<Item>)
  datatype Tables = Tables(objects: seq<ObjRow>, stables: seq<StRow>)

  /** `cur_read_buffer`: which data section the reader is in, and the section offsets. */
  datatype Buffer = NoBuffer | StablesData | ObjectsData
  datatype Reader = Reader(buffer: Buffer, stablesOffset: nat, objectsOffset: nat)

  /** What the stub and deserialize routines save of the reader's position. */
  datatype Saved = Saved(buffer: Buffer, stablesOffset: nat, value: nat)

  /** One pending call, at the next shared access it will make. */
  datatype Frame =
    | GetRoot(it: Item)                                    // test the root slot
    | GetWorking(it: Item)                                 // slot was filled: test `working`
    | Lock(it: Item)
    | Recheck(it: Item)                                    // locked: test the slot again
    | HitUnlock(it: Item)
    | Begin(it: Item)                                      // count up `working`
    | Stub(it: Item)
    | WaitStable(it: Item)                                 // object waiting for its STable
    | StubAlloc(it: Item)                                  // object, STable at hand
    | StubSize(it: Item, k: nat, saved: Saved)             // STable allocated, computing its size
    | Enqueue(it: Item)
    | Decide(it: Item)                                     // run the work loop iff `working == 1`
    | Loop(it: Item)
    | Deserialize(it: Item, cur: Item, k: nat, saved: Saved)
    | Finish(it: Item)                                     // count down `working`
    | Unlock(it: Item)
    | Return(it: Item)                                     // read the slot and hand it over

  /** The root slots that are filled, with the identity of what fills them; the items that
      are complete; and every stubbing and completed deserialization that ever happened. */
  datatype Roots = Roots(
    ids: map<Item, nat>, done: set<Item>, stubbed: multiset<Item>, deserialized: multiset<Item>, next: nat)

  /** `wl_stables` and `wl_objects`, last in first out. */
  datatype Work = Work(stables: seq<Item>, objects: seq<Item>)

  /** The context's reentrant mutex and the `working` count. */
  datatype Sync = Sync(owner: Option<nat>, depth: nat, working: nat)

  datatype State = State(roots: Roots, work: Work, reader: Reader, sync: Sync, threads: map<nat, seq<Frame>>)

  function Stack(s: State, t: nat): seq<Frame> {
    if t in s.threads then s.threads[t] else []
  }

  function Top(k: seq<Frame>): Frame
    requires k != []
  {
    k[|k| - 1]
  }

  function Rest(k: seq<Frame>): seq<Frame>
    requires k != []
  {
    k[..|k| - 1]
  }

  predicate InRange(tab: Tables, it: Item) {
    match it
    case Obj(i) => i < |tab.objects|
    case St(i) => i < |tab.stables|
  }

  /** The tables are not corrupt: every index in them exists. */
  ghost predicate WellFormed(tab: Tables) {
    && (forall r | r in tab.objects ::
          && (r.stable.Some? ==> r.stable.value < |tab.stables|)
          && forall x | x in r.refs :: InRange(tab, x))
    && (forall r | r in tab.stables ::
          && (forall j | j in r.sizeRefs :: j < |tab.stables|)
          && forall x | x in r.refs :: InRange(tab, x))
  }

  function Refs(tab: Tables, it: Item): seq<Item> {
    match it
    case Obj(i) => if i < |tab.objects| then tab.objects[i].refs else []
    case St(i) => if i < |tab.stables| then tab.stables[i].refs else []
  }

  function Offset(tab: Tables, it: Item): nat {
    match it
    case Obj(i) => if i < |tab.objects| then tab.objects[i].offset else 0
    case St(i) => if i < |tab.stables| then tab.stables[i].offset else 0
  }

  function SizeRefs(tab: Tables, it: Item): seq<nat> {
    if it.St? && it.i < |tab.stables| then tab.stables[it.i].sizeRefs else []
  }

  function SizeOffset(tab: Tables, it: Item): nat {
    if it.St? && it.i < |tab.stables| then tab.stables[it.i].sizeOffset else 0
  }

  /** The STable of an object, when it belongs to this context. */
  function StableOf(tab: Tables, it: Item): Option<nat> {
    if it.Obj? && it.i < |tab.objects| then tab.objects[it.i].stable else None
  }

  // ----- the reader's position

  function ReadOffset(r: Reader): nat {
    match r.buffer
    case NoBuffer => 0
    case StablesData => r.stablesOffset
    case ObjectsData => r.objectsOffset
  }

  function Advance(r: Reader): Reader {
    match r.buffer
    case NoBuffer => r
    case StablesData => r.(stablesOffset := r.stablesOffset + 1)
    case ObjectsData => r.(objectsOffset := r.objectsOffset + 1)
  }

  function Save(r: Reader): Saved {
    Saved(r.buffer, r.stablesOffset, ReadOffset(r))
  }

  /** `stub_stable` and `deserialize_stable` put back the section pointer, the STables
      offset and the offset the pointer now leads to. */
  function Restore(r: Reader, saved: Saved): Reader {
    match saved.buffer
    case NoBuffer => Reader(NoBuffer, saved.stablesOffset, r.objectsOffset)
    case StablesData => Reader(StablesData, saved.value, r.objectsOffset)
    case ObjectsData => Reader(ObjectsData, saved.stablesOffset, saved.value)
  }

  /** `deserialize_object` puts back the section pointer only. */
  function RestoreAfter(r: Reader, saved: Saved, cur: Item): Reader {
    if cur.St? then Restore(r, saved) else r.(buffer := saved.buffer)
  }

  /** The reader at the data of a table row. */
  function Seek(r: Reader, cur: Item, offset: nat): Reader {
    if cur.St? then Reader(StablesData, offset, r.objectsOffset) else Reader(ObjectsData, r.stablesOffset, offset)
  }

  // ----- steps

  predicate Enabled(s: State, t: nat) {
    var k := Stack(s, t);
    k != [] && (Top(k).Lock? ==> s.sync.owner == None || s.sync.owner == Some(t))
  }

  function Fill(r: Roots, it: Item): Roots {
    r.(ids := r.ids[it := r.next], next := r.next + 1, stubbed := r.stubbed + multiset{it})
  }

  function Complete(r: Roots, it: Item): Roots {
    r.(done := r.done + {it}, deserialized := r.deserialized + multiset{it})
  }

  function Acquire(y: Sync, t: nat): Sync { y.(owner := Some(t), depth := y.depth + 1) }

  function Release(y: Sync): Sync {
    if y.depth <= 1 then y.(owner := None, depth := 0) else y.(depth := y.depth - 1)
  }

  function CountUp(y: Sync): Sync { y.(working := y.working + 1) }

  function CountDown(y: Sync): Sync { if y.working > 0 then y.(working := y.working - 1) else y }

  function Queue(w: Work, it: Item): Work {
    if it.St? then w.(stables := w.stables + [it]) else w.(objects := w.objects + [it])
  }

  /** `work_loop` takes from the objects only when no STable is queued. */
  function NextWork(w: Work): Item
    requires w != Work([], [])
  {
    if w.stables != [] then w.stables[|w.stables| - 1] else w.objects[|w.objects| - 1]
  }

  function DropWork(w: Work): Work
    requires w != Work([], [])
  {
    if w.stables != [] then w.(stables := w.stables[..|w.stables| - 1])
    else w.(objects := w.objects[..|w.objects| - 1])
  }

  /** A nested call returned: the caller goes on. */
  function Resume(f: Frame): Frame {
    match f
    case WaitStable(it) => StubAlloc(it)
    case StubSize(it, k, saved) => StubSize(it, k + 1, saved)
    case Deserialize(it, cur, k, saved) => Deserialize(it, cur, k + 1, saved)
    case _ => f
  }

  function Put(s: State, t: nat, k: seq<Frame>): State { s.(threads := s.threads[t := k]) }

  /** Thread `t` makes its next shared access. */
  function Step(tab: Tables, s: State, t: nat): State
    requires Enabled(s, t)
  {
    var k := Stack(s, t);
    var rest := Rest(k);
    match Top(k)
    case GetRoot(it) => Put(s, t, rest + [if it in s.roots.ids then GetWorking(it) else Lock(it)])
    case GetWorking(it) => Put(s, t, rest + [if s.sync.working == 0 then Return(it) else Lock(it)])
    case Lock(it) => Put(s.(sync := Acquire(s.sync, t)), t, rest + [Recheck(it)])
    case Recheck(it) => Put(s, t, rest + [if it in s.roots.ids then HitUnlock(it) else Begin(it)])
    case HitUnlock(it) => Put(s.(sync := Release(s.sync)), t, rest + [Return(it)])
    case Begin(it) => Put(s.(sync := CountUp(s.sync)), t, rest + [Stub(it)])
    case Stub(it) => StepStub(tab, s, t, rest, it)
    case WaitStable(it) => s
    case StubAlloc(it) => Put(s.(roots := Fill(s.roots, it)), t, rest + [Enqueue(it)])
    case StubSize(it, n, saved) =>
      if n < |SizeRefs(tab, it)|
      then Put(s.(reader := Advance(s.reader)), t, k + [GetRoot(St(SizeRefs(tab, it)[n]))])
      else Put(s.(reader := Restore(s.reader, saved)), t, rest + [Enqueue(it)])
    case Enqueue(it) => Put(s.(work := Queue(s.work, it)), t, rest + [Decide(it)])
    case Decide(it) => Put(s, t, rest + [if s.sync.working == 1 then Loop(it) else Finish(it)])
    case Loop(it) =>
      if s.work == Work([], []) then Put(s, t, rest + [Finish(it)])
      else
        var cur := NextWork(s.work);
        Put(s.(work := DropWork(s.work), reader := Seek(s.reader, cur, Offset(tab, cur))),
            t, rest + [Deserialize(it, cur, 0, Save(s.reader))])
    case Deserialize(it, cur, n, saved) =>
      if n < |Refs(tab, cur)|
      then Put(s.(reader := Advance(s.reader)), t, k + [GetRoot(Refs(tab, cur)[n])])
      else Put(s.(reader := RestoreAfter(s.reader, saved, cur), roots := Complete(s.roots, cur)), t, rest + [Loop(it)])
    case Finish(it) => Put(s.(sync := CountDown(s.sync)), t, rest + [Unlock(it)])
    case Unlock(it) => Put(s.(sync := Release(s.sync)), t, rest + [Return(it)])
    case Return(it) => Put(s, t, if rest == [] then [] else Rest(rest) + [Resume(Top(rest))])
  }

  /** `stub_object` first resolves the STable; `stub_stable` fills its slot at once. */
  function StepStub(tab: Tables, s: State, t: nat, rest: seq<Frame>, it: Item): State {
    if it.Obj? then
      match StableOf(tab, it)
      case Some(j) => Put(s, t, rest + [WaitStable(it), GetRoot(St(j))])
      case None => Put(s, t, rest + [StubAlloc(it)])
    else
      Put(s.(roots := Fill(s.roots, it), reader := Seek(s.reader, it, SizeOffset(tab, it))),
          t, rest + [StubSize(it, 0, Save(s.reader))])
  }

  /** An idle thread asks for an item (`MVM_sc_get_object`, `MVM_sc_get_stable`). */
  function Call(s: State, t: nat, it: Item): State { Put(s, t, [GetRoot(it)]) }

  ghost predicate Next(tab: Tables, s: State, s': State) {
    || (exists t: nat :: Enabled(s, t) && s' == Step(tab, s, t))
    || (exists t: nat, it: Item :: Stack(s, t) == [] && InRange(tab, it) && s' == Call(s, t, it))
  }

  /** A freshly loaded context; items repossessed while loading are complete. */
  ghost predicate Init(tab: Tables, s: State) {
    && s.roots.done == s.roots.ids.Keys
    && s.roots.stubbed == s.roots.deserialized == multiset(s.roots.done)
    && s.work == Work([], []) && s.sync == Sync(None, 0, 0) && s.reader.buffer == NoBuffer
    && (forall t: nat :: Stack(s, t) == [])
    && Closed(tab, s.roots) && Typed(tab, s.roots)
  }

  ghost predicate IsRun(tab: Tables, run: seq<State>) {
    && run != [] && Init(tab, run[0])
    && forall i :: 0 < i < |run| ==> NextAt(tab, run, i)
  }

  ghost predicate NextAt(tab: Tables, run: seq<State>, i: int)
    requires 0 < i < |run|
  {
    Next(tab, run[i - 1], run[i])
  }

  // ----- what every state keeps

  predicate Waiting(f: Frame) { f.WaitStable? || f.StubSize? || f.Deserialize? }

  predicate Working(f: Frame) {
    Waiting(f) || f.Stub? || f.StubAlloc? || f.Enqueue? || f.Decide? || f.Loop? || f.Finish?
  }

  predicate Locked(f: Frame) { Working(f) || f.Recheck? || f.HitUnlock? || f.Begin? || f.Unlock? }

  function Bit(b: bool): nat { if b then 1 else 0 }

  /** The references of a complete item are filled. */
  ghost predicate Closed(tab: Tables, r: Roots) {
    forall it | it in r.done :: forall x | x in Refs(tab, it) :: x in r.ids
  }

  /** An object's slot is only filled after its STable's. */
  ghost predicate Typed(tab: Tables, r: Roots) {
    forall it | it in r.ids :: StableOf(tab, it).Some? ==> St(StableOf(tab, it).value) in r.ids
  }

  /** The filled but incomplete items that are in the hands of a pending call. */
  ghost function Carried(k: seq<Frame>): multiset<Item> {
    if k == [] then multiset{} else Carried(Rest(k)) + CarriedBy(Top(k))
  }

  ghost function CarriedBy(f: Frame): multiset<Item> {
    match f
    case StubSize(it, _, _) => multiset{it}
    case Enqueue(it) => multiset{it}
    case Deserialize(_, cur, _, _) => multiset{cur}
    case _ => multiset{}
  }

  /** The item a waiting call is waiting for. */
  ghost predicate Wants(tab: Tables, f: Frame, x: Item) {
    match f
    case WaitStable(it) => StableOf(tab, it).Some? && x == St(StableOf(tab, it).value)
    case StubSize(it, k, _) => k < |SizeRefs(tab, it)| && x == St(SizeRefs(tab, it)[k])
    case Deserialize(_, cur, k, _) => k < |Refs(tab, cur)| && x == Refs(tab, cur)[k]
    case _ => false
  }

  /** Every call is for an existing item; below the top of a stack every call waits for
      the one above it, and a call that waits for its STable is never on top. */
  ghost predicate Shape(tab: Tables, k: seq<Frame>) {
    k != [] && !Top(k).WaitStable? && Chain(tab, k)
  }

  ghost predicate Chain(tab: Tables, k: seq<Frame>) {
    k == [] || (InRange(tab, Top(k).it) && Chain(tab, Rest(k)) && (|k| > 1 ==> Wants(tab, Top(Rest(k)), Top(k).it)))
  }

  /** What a pending call may rely on; `bottom` is the call made by the application. */
  ghost predicate FrameOk(tab: Tables, r: Roots, f: Frame, bottom: bool) {
    match f
    case GetRoot(_) => true
    case Lock(_) => true
    case Recheck(_) => true
    case GetWorking(it) => it in r.ids
    case HitUnlock(it) => it in r.ids && (bottom ==> it in r.done)
    case Begin(it) => it !in r.ids
    case Stub(it) => it !in r.ids
    case WaitStable(it) => it !in r.ids && it.Obj?
    case StubAlloc(it) =>
      it !in r.ids && it.Obj? && (StableOf(tab, it).Some? ==> St(StableOf(tab, it).value) in r.ids)
    case StubSize(it, _, _) => it in r.ids && it.St?
    case Enqueue(it) => it in r.ids
    case Decide(it) => it in r.ids
    case Loop(it) => bottom && it in r.ids
    case Deserialize(it, cur, k, _) =>
      && bottom && it in r.ids && cur in r.ids && k <= |Refs(tab, cur)|
      && forall x | x in Refs(tab, cur)[..k] :: x in r.ids
    case Finish(it) => it in r.ids
    case Unlock(it) => it in r.ids && (bottom ==> it in r.done)
    case Return(it) => it in r.ids && (bottom ==> it in r.done)
  }

  ghost predicate FramesOk(tab: Tables, r: Roots, k: seq<Frame>) {
    k == [] || (FramesOk(tab, r, Rest(k)) && FrameOk(tab, r, Top(k), |k| == 1))
  }

  /** Where the reader must be when the top call of `k` goes on (`go`), or while it waits. */
  ghost function Position(tab: Tables, k: seq<Frame>, go: bool): (p: (Buffer, nat))
    ensures p.0 == NoBuffer ==> p.1 == 0
  {
    if k == [] then (NoBuffer, 0)
    else
      match Top(k)
      case StubSize(it, n, _) => (StablesData, SizeOffset(tab, it) + n + Bit(!go))
      case Deserialize(_, cur, n, _) => (if cur.St? then StablesData else ObjectsData, Offset(tab, cur) + n + Bit(!go))
      case _ => Position(tab, Rest(k), false)
  }

  /** Each call that moved the reader saved the position its caller needs. */
  ghost predicate SavesOk(tab: Tables, k: seq<Frame>) {
    k == [] || (SavesOk(tab, Rest(k)) &&
                (Top(k).StubSize? || Top(k).Deserialize? ==>
                   (Top(k).saved.buffer, Top(k).saved.value) == Position(tab, Rest(k), false)))
  }

  ghost predicate ReaderOk(tab: Tables, r: Reader, k: seq<Frame>) {
    (r.buffer, ReadOffset(r)) == Position(tab, k, true) && SavesOk(tab, k)
  }

  ghost predicate CountsOk(y: Sync, k: seq<Frame>)
    requires k != []
  {
    y.depth == |k| - 1 + Bit(Locked(Top(k))) && y.depth >= 1 && y.working == |k| - 1 + Bit(Working(Top(k)))
  }

  /** Queued work is only left while the bottom call still has to run the work loop. */
  ghost predicate WorkOk(w: Work, k: seq<Frame>) {
    && (forall x | x in w.stables :: x.St?) && (forall x | x in w.objects :: x.Obj?)
    && (k == [] || !Working(k[0]) || k[0].Finish? ==> w == Work([], []))
  }

  /** The calls of the thread that holds the mutex. */
  ghost predicate BusyOk(tab: Tables, s: State, k: seq<Frame>) {
    && k != [] && CountsOk(s.sync, k)
    && Shape(tab, k) && FramesOk(tab, s.roots, k) && ReaderOk(tab, s.reader, k)
  }

  /** The calls of every other thread: at most one, and not inside the mutex. */
  ghost predicate IdleOk(tab: Tables, r: Roots, k: seq<Frame>) {
    |k| <= 1 && (|k| == 1 ==> !Locked(k[0]) && InRange(tab, k[0].it) && FrameOk(tab, r, k[0], true))
  }

  ghost function BusyStack(s: State): seq<Frame> {
    if s.sync.owner.Some? then Stack(s, s.sync.owner.value) else []
  }

  ghost function Queued(w: Work): multiset<Item> {
    multiset(w.stables) + multiset(w.objects)
  }

  /** Filled slots are complete, queued, or in the hands of one pending call, and each was
      stubbed once and each complete one deserialized once. */
  ghost predicate Conserved(r: Roots, w: Work, k: seq<Frame>) {
    && multiset(r.ids.Keys) == multiset(r.done) + Queued(w) + Carried(k)
    && r.stubbed == multiset(r.ids.Keys)
    && r.deserialized == multiset(r.done)
  }

  ghost predicate AllIdle(tab: Tables, s: State, t: Option<nat>) {
    forall u: nat :: t != Some(u) ==> IdleOk(tab, s.roots, Stack(s, u))
  }

  ghost predicate Inv(tab: Tables, s: State) {
    && AllIdle(tab, s, s.sync.owner)
    && (s.sync.owner.Some? ==> BusyOk(tab, s, BusyStack(s)))
    && (s.sync.owner.None? ==> s.sync == Sync(None, 0, 0) && s.reader.buffer == NoBuffer)
    && Conserved(s.roots, s.work, BusyStack(s)) && WorkOk(s.work, BusyStack(s))
    && Closed(tab, s.roots) && Typed(tab, s.roots)
  }
}
