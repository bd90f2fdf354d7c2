/** Every step of the lazy deserializer keeps its invariant. */
module DemandProofs {
  import opened Wrappers
  import opened Demand

  lemma CallInv(tab: Tables, s: State, t: nat, it: Item)
    requires Inv(tab, s) && Stack(s, t) == [] && InRange(tab, it)
    ensures Inv(tab, Call(s, t, it))
  {
    var s' := Call(s, t, it);
    Elsewhere(tab, s, s', t);
  }

  /** A step of a thread outside the mutex, seen from the holder and the rest. */
  lemma Elsewhere(tab: Tables, s: State, s': State, t: nat)
    requires Inv(tab, s) && s.sync.owner != Some(t)
    requires s' == s.(threads := s.threads[t := Stack(s', t)]) && t in s'.threads
    requires IdleOk(tab, s.roots, Stack(s', t))
    ensures Inv(tab, s')
  {
    assert BusyStack(s') == BusyStack(s);
    forall u: nat | s'.sync.owner != Some(u) ensures IdleOk(tab, s'.roots, Stack(s', u)) {
      assert u != t ==> IdleOk(tab, s.roots, Stack(s, u));
    }
  }

  /** While no work is counted, every filled slot is complete. */
  lemma QuietAllDone(tab: Tables, s: State)
    requires Inv(tab, s) && s.sync.working == 0
    ensures s.roots.ids.Keys == s.roots.done
  {
    var k := BusyStack(s);
    if k != [] {
      assert |k| == 1 && Rest(k) == [];
      assert Carried(k) == multiset{};
    }
    SameKeys(s.roots.ids.Keys, s.roots.done);
  }

  lemma SameKeys(a: set<Item>, b: set<Item>)
    requires multiset(a) == multiset(b)
    ensures a == b
  {
    forall x ensures x in a <==> x in b {
      assert x in multiset(a) <==> x in multiset(b);
    }
  }

  /** A step leaves the calls of the other threads alone. */
  lemma StackStays(tab: Tables, s: State, t: nat, u: nat)
    requires Enabled(s, t) && u != t
    ensures Stack(Step(tab, s, t), u) == Stack(s, u)
  {}

  /** A thread outside the mutex makes a step other than taking it. */
  lemma IdleStepInv(tab: Tables, s: State, t: nat)
    requires Inv(tab, s) && Enabled(s, t) && s.sync.owner != Some(t) && !Top(Stack(s, t)).Lock?
    ensures Inv(tab, Step(tab, s, t))
  {
    var k := Stack(s, t);
    assert IdleOk(tab, s.roots, k);
    assert Rest(k) == [];
    if Top(k).GetRoot? {
      IdleMoves(tab, s, t, if k[0].it in s.roots.ids then GetWorking(k[0].it) else Lock(k[0].it));
    } else if Top(k).GetWorking? {
      IdleWorking(tab, s, t, k[0].it);
    } else {
      Elsewhere(tab, s, Put(s, t, []), t);
    }
  }

  lemma IdleWorking(tab: Tables, s: State, t: nat, it: Item)
    requires Inv(tab, s) && s.sync.owner != Some(t) && InRange(tab, it) && it in s.roots.ids
    ensures Inv(tab, Put(s, t, [] + [if s.sync.working == 0 then Return(it) else Lock(it)]))
  {
    if s.sync.working == 0 { QuietAllDone(tab, s); }
    IdleMoves(tab, s, t, if s.sync.working == 0 then Return(it) else Lock(it));
  }

  lemma IdleMoves(tab: Tables, s: State, t: nat, f: Frame)
    requires Inv(tab, s) && s.sync.owner != Some(t)
    requires !Locked(f) && InRange(tab, f.it) && FrameOk(tab, s.roots, f, true)
    ensures Inv(tab, Put(s, t, [] + [f]))
  {
    Elsewhere(tab, s, Put(s, t, [] + [f]), t);
  }

  /** The other threads stay as they are while slots only fill and items only complete. */
  lemma OthersIdle(tab: Tables, s: State, s': State, t: nat)
    requires AllIdle(tab, s, Some(t))
    requires s.roots.ids.Keys <= s'.roots.ids.Keys && s.roots.done <= s'.roots.done
    requires s'.threads == s.threads[t := Stack(s', t)] && t in s'.threads
    ensures AllIdle(tab, s', Some(t))
  {
    forall u: nat | u != t ensures IdleOk(tab, s'.roots, Stack(s', u)) {
      assert IdleOk(tab, s.roots, Stack(s, u));
    }
  }

  /** A call that is not a waiting one takes the top's place; the reader is where the call
      below left it. */
  lemma SwapTop(tab: Tables, r: Roots, k: seq<Frame>, f: Frame)
    requires k != [] && Shape(tab, k) && FramesOk(tab, r, k) && SavesOk(tab, k)
    requires f.it == Top(k).it && !Waiting(f) && FrameOk(tab, r, f, |k| == 1)
    ensures var k' := Rest(k) + [f];
            && Rest(k') == Rest(k) && Top(k') == f && Shape(tab, k') && FramesOk(tab, r, k') && SavesOk(tab, k')
            && Position(tab, k', true) == Position(tab, Rest(k), false)
            && Carried(k) == Carried(Rest(k)) + CarriedBy(Top(k))
            && Carried(k') == Carried(Rest(k)) + CarriedBy(f)
  {
    assert Rest(Rest(k) + [f]) == Rest(k);
  }

  /** A state of the mutex holder is all right when its parts are. */
  lemma HolderState(tab: Tables, s: State, s': State, t: nat, k: seq<Frame>)
    requires AllIdle(tab, s, Some(t)) && s'.threads == s.threads[t := k] && s'.sync.owner == Some(t)
    requires s.roots.ids.Keys <= s'.roots.ids.Keys && s.roots.done <= s'.roots.done
    requires k != [] && CountsOk(s'.sync, k) && Shape(tab, k)
    requires FramesOk(tab, s'.roots, k) && ReaderOk(tab, s'.reader, k)
    requires Conserved(s'.roots, s'.work, k) && WorkOk(s'.work, k) && Closed(tab, s'.roots) && Typed(tab, s'.roots)
    ensures Inv(tab, s')
  {
    OthersIdle(tab, s, s', t);
    assert BusyStack(s') == k;
  }

  /** The mutex is taken, or taken once more. */
  lemma LockInv(tab: Tables, s: State, t: nat)
    requires Inv(tab, s) && Enabled(s, t) && Top(Stack(s, t)).Lock?
    ensures Inv(tab, Step(tab, s, t))
  {
    var k := Stack(s, t);
    var f := Recheck(Top(k).it);
    if s.sync.owner == Some(t) {
      assert Top(Rest(k) + [f]) == f;
      HolderMoves(tab, s, t, Acquire(s.sync, t), f);
    } else {
      assert IdleOk(tab, s.roots, k);
      assert Rest(k) == [] && Rest(k) + [f] == [f];
      FirstCall(tab, s.roots, s.reader, f);
      HolderState(tab, s, Step(tab, s, t), t, [f]);
    }
  }

  lemma FirstCall(tab: Tables, r: Roots, d: Reader, f: Frame)
    requires f.Recheck? && InRange(tab, f.it) && d.buffer == NoBuffer
    ensures Shape(tab, [f]) && FramesOk(tab, r, [f]) && ReaderOk(tab, d, [f]) && Carried([f]) == multiset{}
  {
    assert Rest([f]) == [];
    assert FramesOk(tab, r, []) && SavesOk(tab, []) && Carried([]) == multiset{};
  }

  predicate Plain(f: Frame) {
    f.GetRoot? || f.GetWorking? || f.Recheck? || f.Begin? || f.Decide? || f.Finish?
  }

  /** At the bottom of the holder's calls, with nothing queued, all filled slots are complete. */
  lemma BottomAllDone(r: Roots, w: Work, k: seq<Frame>)
    requires |k| == 1 && CarriedBy(k[0]) == multiset{} && w == Work([], []) && Conserved(r, w, k)
    ensures r.ids.Keys == r.done
  {
    assert Rest(k) == [];
    assert Carried(k) == multiset{};
    SameKeys(r.ids.Keys, r.done);
  }

  lemma Regroup(d: multiset<Item>, q: multiset<Item>, q': multiset<Item>, c: multiset<Item>, x: multiset<Item>,
                y: multiset<Item>)
    requires q' + y == q + x
    ensures d + q' + (c + y) == d + q + (c + x)
  {
    assert d + q' + (c + y) == d + c + (q' + y);
    assert d + q + (c + x) == d + c + (q + x);
  }

  /** The mutex holder's top call goes on as `f`. */
  lemma HolderSwaps(tab: Tables, s: State, s': State, t: nat, f: Frame)
    requires Inv(tab, s) && s.sync.owner == s'.sync.owner == Some(t) && Stack(s, t) != []
    requires var k := Stack(s, t);
             && f.it == Top(k).it && !Waiting(f) && FrameOk(tab, s.roots, f, |k| == 1)
             && s'.roots == s.roots && s'.threads == s.threads[t := Rest(k) + [f]]
             && CountsOk(s'.sync, Rest(k) + [f])
             && (s'.reader.buffer, ReadOffset(s'.reader)) == Position(tab, Rest(k), false)
             && Queued(s'.work) + CarriedBy(f) == Queued(s.work) + CarriedBy(Top(k))
             && WorkOk(s'.work, Rest(k) + [f])
    ensures Inv(tab, s')
  {
    var k := Stack(s, t);
    SwapTop(tab, s.roots, k, f);
    Regroup(multiset(s.roots.done), Queued(s.work), Queued(s'.work), Carried(Rest(k)), CarriedBy(Top(k)), CarriedBy(f));
    HolderState(tab, s, s', t, Rest(k) + [f]);
  }

  /** The mutex holder's top call moves on; only the counters change with it. */
  lemma HolderMoves(tab: Tables, s: State, t: nat, y: Sync, f: Frame)
    requires Inv(tab, s) && s.sync.owner == Some(t) && Stack(s, t) != []
    requires var k := Stack(s, t);
             && !Waiting(Top(k)) && !Waiting(f) && f.it == Top(k).it && CarriedBy(f) == CarriedBy(Top(k))
             && FrameOk(tab, s.roots, f, |k| == 1)
             && y.owner == Some(t) && CountsOk(y, Rest(k) + [f])
             && (|k| == 1 && (!Working(f) || f.Finish?) ==> s.work == Work([], []))
    ensures Inv(tab, Put(s.(sync := y), t, Rest(Stack(s, t)) + [f]))
  {
    var k := Stack(s, t);
    assert |k| > 1 ==> (Rest(k) + [f])[0] == k[0];
    HolderSwaps(tab, s, Put(s.(sync := y), t, Rest(k) + [f]), t, f);
  }

  /** The frame after a step that only tests something or counts `working`. */
  function PlainNext(s: State, f: Frame): Frame {
    match f
    case GetRoot(it) => if it in s.roots.ids then GetWorking(it) else Lock(it)
    case GetWorking(it) => if s.sync.working == 0 then Return(it) else Lock(it)
    case Recheck(it) => if it in s.roots.ids then HitUnlock(it) else Begin(it)
    case Begin(it) => Stub(it)
    case Decide(it) => if s.sync.working == 1 then Loop(it) else Finish(it)
    case Finish(it) => Unlock(it)
    case _ => Finish(f.it)
  }

  function PlainSync(y: Sync, f: Frame): Sync {
    if f.Begin? then CountUp(y) else if f.Finish? then CountDown(y) else y
  }

  lemma PlainStep(tab: Tables, s: State, t: nat)
    requires Enabled(s, t) && Stack(s, t) != []
    requires Plain(Top(Stack(s, t))) || (Top(Stack(s, t)).Loop? && s.work == Work([], []))
    ensures var k := Stack(s, t);
            Step(tab, s, t) == Put(s.(sync := PlainSync(s.sync, Top(k))), t, Rest(k) + [PlainNext(s, Top(k))])
  {}

  /** Steps of the mutex holder that only test something or count `working`. */
  lemma PlainInv(tab: Tables, s: State, t: nat)
    requires Inv(tab, s) && Enabled(s, t) && s.sync.owner == Some(t)
    requires Plain(Top(Stack(s, t))) || (Top(Stack(s, t)).Loop? && s.work == Work([], []))
    ensures Inv(tab, Step(tab, s, t))
  {
    var k := Stack(s, t);
    if |k| == 1 && (Top(k).Recheck? || Top(k).Finish?) {
      BottomAllDone(s.roots, s.work, k);
    }
    PlainStep(tab, s, t);
    PlainFrame(tab, s, k);
    PlainCounts(s, k);
    HolderMoves(tab, s, t, PlainSync(s.sync, Top(k)), PlainNext(s, Top(k)));
  }

  lemma PlainFrame(tab: Tables, s: State, k: seq<Frame>)
    requires k != [] && FrameOk(tab, s.roots, Top(k), |k| == 1) && CountsOk(s.sync, k)
    requires Plain(Top(k)) || Top(k).Loop?
    requires |k| == 1 && (Top(k).Recheck? || Top(k).Finish?) ==> s.roots.ids.Keys == s.roots.done
    ensures var f := PlainNext(s, Top(k));
            && f.it == Top(k).it && !Waiting(f) && CarriedBy(f) == CarriedBy(Top(k)) == multiset{}
            && FrameOk(tab, s.roots, f, |k| == 1)
  {}

  lemma PlainCounts(s: State, k: seq<Frame>)
    requires k != [] && CountsOk(s.sync, k) && (Plain(Top(k)) || Top(k).Loop?)
    ensures CountsOk(PlainSync(s.sync, Top(k)), Rest(k) + [PlainNext(s, Top(k))])
  {
    assert Top(Rest(k) + [PlainNext(s, Top(k))]) == PlainNext(s, Top(k));
  }

  /** The mutex is released once. */
  lemma ReleaseInv(tab: Tables, s: State, t: nat)
    requires Inv(tab, s) && Enabled(s, t) && s.sync.owner == Some(t)
    requires Top(Stack(s, t)).HitUnlock? || Top(Stack(s, t)).Unlock?
    ensures Inv(tab, Step(tab, s, t))
  {
    var s', k := Step(tab, s, t), Stack(s, t);
    var f := Return(Top(k).it);
    assert Top(Rest(k) + [f]) == f;
    if |k| > 1 {
      HolderMoves(tab, s, t, Release(s.sync), f);
    } else {
      OthersIdle(tab, s, s', t);
      assert Rest(k) == [] && Rest(k) + [f] == [f];
      assert Carried(k) == multiset{} && Position(tab, k, true) == (NoBuffer, 0);
    }
  }

  /** A call that waits, or goes on after waiting, keeps relying on what it relied on while
      one more slot is filled; no waiting object stub is for that slot. */
  lemma {:induction false} FramesFill(tab: Tables, r: Roots, k: seq<Frame>, it: Item)
    requires FramesOk(tab, r, k) && it !in r.ids
    requires forall f | f in k :: Waiting(f) && (f.WaitStable? ==> f.it != it)
    ensures FramesOk(tab, Fill(r, it), k)
  {
    if k != [] { FramesFill(tab, r, Rest(k), it); }
  }

  lemma {:induction false} BelowWaits(tab: Tables, k: seq<Frame>, i: nat)
    requires Chain(tab, k) && i < |k| - 1
    ensures Waiting(k[i]) && Wants(tab, k[i], k[i + 1].it)
  {
    if i < |k| - 2 { BelowWaits(tab, Rest(k), i); }
  }

  lemma {:induction false} FrameAt(tab: Tables, r: Roots, k: seq<Frame>, i: nat)
    requires FramesOk(tab, r, k) && i < |k|
    ensures FrameOk(tab, r, k[i], i == 0)
  {
    if i < |k| - 1 { FrameAt(tab, r, Rest(k), i); }
  }

  /** Only STables are demanded on behalf of a stub, so an object is stubbed either by the
      application's own call or for the item the bottom call deserializes. */
  lemma ObjectsAreStubbedLow(tab: Tables, r: Roots, k: seq<Frame>)
    requires k != [] && Shape(tab, k) && FramesOk(tab, r, k) && Top(k).it.Obj?
    ensures |k| <= 2 && (|k| == 2 ==> k[0].Deserialize?)
  {
    if |k| >= 2 {
      BelowWaits(tab, k, |k| - 2);
      FrameAt(tab, r, k, |k| - 2);
    }
  }

  lemma NoWaiterFor(tab: Tables, r: Roots, k: seq<Frame>)
    requires k != [] && Shape(tab, k) && FramesOk(tab, r, k)
    ensures forall f | f in Rest(k) :: Waiting(f) && (f.WaitStable? ==> f.it != Top(k).it)
  {
    if Top(k).it.Obj? { ObjectsAreStubbedLow(tab, r, k); }
    forall f | f in Rest(k) ensures Waiting(f) && (f.WaitStable? ==> f.it != Top(k).it) {
      var i :| 0 <= i < |Rest(k)| && Rest(k)[i] == f;
      BelowWaits(tab, k, i);
      FrameAt(tab, r, k, i);
    }
  }

  lemma OneMore(a: set<Item>, x: Item)
    requires x !in a
    ensures multiset(a + {x}) == multiset(a) + multiset{x}
  {}

  lemma FillConserves(r: Roots, w: Work, k: seq<Frame>, k': seq<Frame>, it: Item)
    requires Conserved(r, w, k) && it !in r.ids && Carried(k') == Carried(k) + multiset{it}
    ensures Conserved(Fill(r, it), w, k')
  {
    assert Fill(r, it).ids.Keys == r.ids.Keys + {it};
    OneMore(r.ids.Keys, it);
    var a, b, c, x := multiset(r.done), Queued(w), Carried(k), multiset{it};
    assert a + b + c + x == a + b + (c + x);
  }

  /** A slot is filled: an STable stub at once, an object stub after its STable. */
  lemma FillInv(tab: Tables, s: State, t: nat)
    requires Inv(tab, s) && Enabled(s, t) && s.sync.owner == Some(t)
    requires Top(Stack(s, t)).StubAlloc? || (Top(Stack(s, t)).Stub? && Top(Stack(s, t)).it.St?)
    ensures Inv(tab, Step(tab, s, t))
  {
    var s', k := Step(tab, s, t), Stack(s, t);
    var it := Top(k).it;
    if Top(k).StubAlloc? {
      FillHolder(tab, s, t, Enqueue(it), s.reader);
    } else {
      FillHolder(tab, s, t, StubSize(it, 0, Save(s.reader)), Seek(s.reader, it, SizeOffset(tab, it)));
    }
  }

  lemma FillStack(tab: Tables, r: Roots, k: seq<Frame>, f: Frame)
    requires k != [] && Shape(tab, k) && FramesOk(tab, r, k) && f.it == Top(k).it && f.it !in r.ids
    requires FrameOk(tab, Fill(r, f.it), f, |k| == 1)
    requires CarriedBy(Top(k)) == multiset{} && CarriedBy(f) == multiset{f.it}
    ensures var k' := Rest(k) + [f];
            && Rest(k') == Rest(k) && Top(k') == f && Shape(tab, k') && FramesOk(tab, Fill(r, f.it), k')
            && Carried(k') == Carried(k) + multiset{f.it}
  {
    assert Rest(Rest(k) + [f]) == Rest(k);
    NoWaiterFor(tab, r, k);
    FramesFill(tab, r, Rest(k), f.it);
  }

  lemma FillItems(tab: Tables, r: Roots, it: Item)
    requires Closed(tab, r) && Typed(tab, r)
    requires StableOf(tab, it).Some? ==> St(StableOf(tab, it).value) in r.ids
    ensures Closed(tab, Fill(r, it)) && Typed(tab, Fill(r, it))
  {}

  lemma FillHolder(tab: Tables, s: State, t: nat, f: Frame, r: Reader)
    requires Inv(tab, s) && Enabled(s, t) && s.sync.owner == Some(t)
    requires var k := Stack(s, t);
             && (Top(k).StubAlloc? || (Top(k).Stub? && Top(k).it.St?)) && f.it == Top(k).it
             && ((f.Enqueue? && r == s.reader) || f == StubSize(f.it, 0, Save(s.reader)))
             && FrameOk(tab, Fill(s.roots, f.it), f, |k| == 1)
             && (f.StubSize? ==> r == Seek(s.reader, f.it, SizeOffset(tab, f.it)) && f.it.St?)
    ensures Inv(tab, Put(s.(roots := Fill(s.roots, f.it), reader := r), t, Rest(Stack(s, t)) + [f]))
  {
    var k := Stack(s, t);
    var k' := Rest(k) + [f];
    FillStack(tab, s.roots, k, f);
    FillItems(tab, s.roots, f.it);
    FillConserves(s.roots, s.work, k, k', f.it);
    assert |k| > 1 ==> k'[0] == k[0];
    HolderState(tab, s, Put(s.(roots := Fill(s.roots, f.it), reader := r), t, k'), t, k');
  }

  /** An object whose STable is in another context goes on; otherwise it waits for it. */
  lemma StubObjectInv(tab: Tables, s: State, t: nat)
    requires WellFormed(tab) && Inv(tab, s) && Enabled(s, t) && s.sync.owner == Some(t)
    requires Top(Stack(s, t)).Stub? && Top(Stack(s, t)).it.Obj?
    ensures Inv(tab, Step(tab, s, t))
  {
    var k := Stack(s, t);
    var it := Top(k).it;
    if StableOf(tab, it).None? {
      assert Top(Rest(k) + [StubAlloc(it)]) == StubAlloc(it);
      HolderMoves(tab, s, t, s.sync, StubAlloc(it));
    } else {
      var w := WaitStable(it);
      assert tab.objects[it.i] in tab.objects;
      var k1 := Rest(k) + [w];
      assert Rest(k1) == Rest(k) && Top(k1) == w;
      var s1 := Put(s, t, k1);
      Descend(tab, s, t, k1, St(StableOf(tab, it).value), s.reader);
      assert Rest(k) + [w, GetRoot(St(StableOf(tab, it).value))] == k1 + [GetRoot(St(StableOf(tab, it).value))];
    }
  }

  lemma DescendStack(tab: Tables, r: Roots, k: seq<Frame>, k1: seq<Frame>, x: Item)
    requires k != [] && k1 != [] && Rest(k1) == Rest(k) && Top(k1).it == Top(k).it
    requires Shape(tab, k) && FramesOk(tab, r, k) && FrameOk(tab, r, Top(k1), |k1| == 1)
    requires Wants(tab, Top(k1), x) && InRange(tab, x) && CarriedBy(Top(k1)) == CarriedBy(Top(k))
    ensures var k2 := k1 + [GetRoot(x)];
            && Rest(k2) == k1 && Top(k2) == GetRoot(x)
            && Shape(tab, k2) && FramesOk(tab, r, k2) && Carried(k2) == Carried(k)
  {
    var k2 := k1 + [GetRoot(x)];
    assert Rest(k2) == k1 && Top(k2) == GetRoot(x);
    assert Chain(tab, k1) && FramesOk(tab, r, k1) && Carried(k1) == Carried(k);
    assert Carried(k2) == Carried(k1) + multiset{};
  }

  /** The top call, now waiting as the top of `k1`, makes a nested call. */
  lemma Descend(tab: Tables, s: State, t: nat, k1: seq<Frame>, x: Item, r: Reader)
    requires Inv(tab, s) && s.sync.owner == Some(t) && Stack(s, t) != []
    requires k1 != [] && Rest(k1) == Rest(Stack(s, t)) && Top(k1).it == Top(Stack(s, t)).it
    requires Working(Top(Stack(s, t))) && !Top(Stack(s, t)).Finish?
    requires Wants(tab, Top(k1), x) && InRange(tab, x) && CarriedBy(Top(k1)) == CarriedBy(Top(Stack(s, t)))
    requires FrameOk(tab, s.roots, Top(k1), |k1| == 1)
    requires SavesOk(tab, k1) && (r.buffer, ReadOffset(r)) == Position(tab, k1, false)
    ensures Inv(tab, Put(s.(reader := r), t, k1 + [GetRoot(x)]))
  {
    var k, k2 := Stack(s, t), k1 + [GetRoot(x)];
    DescendStack(tab, s.roots, k, k1, x);
    assert |k| > 1 ==> k2[0] == k[0];
    HolderState(tab, s, Put(s.(reader := r), t, k2), t, k2);
  }

  /** The STables a stub's size needs are demanded one by one; then the reader is put back. */
  lemma StubSizeInv(tab: Tables, s: State, t: nat)
    requires WellFormed(tab) && Inv(tab, s) && Enabled(s, t) && s.sync.owner == Some(t) && Top(Stack(s, t)).StubSize?
    ensures Inv(tab, Step(tab, s, t))
  {
    var k := Stack(s, t);
    var f := Top(k);
    if f.k < |SizeRefs(tab, f.it)| {
      assert tab.stables[f.it.i] in tab.stables && SizeRefs(tab, f.it)[f.k] in tab.stables[f.it.i].sizeRefs;
      Descend(tab, s, t, k, St(SizeRefs(tab, f.it)[f.k]), Advance(s.reader));
    } else {
      var e := Enqueue(f.it);
      assert Top(Rest(k) + [e]) == e;
      assert (f.saved.buffer, f.saved.value) == Position(tab, Rest(k), false);
      assert |k| > 1 ==> (Rest(k) + [e])[0] == k[0];
      HolderSwaps(tab, s, Step(tab, s, t), t, e);
    }
  }

  /** A stub is queued. */
  lemma EnqueueInv(tab: Tables, s: State, t: nat)
    requires Inv(tab, s) && Enabled(s, t) && s.sync.owner == Some(t) && Top(Stack(s, t)).Enqueue?
    ensures Inv(tab, Step(tab, s, t))
  {
    var k := Stack(s, t);
    var f := Decide(Top(k).it);
    QueueAdds(s.work, f.it);
    assert Top(Rest(k) + [f]) == f;
    if |k| > 1 { BelowWaits(tab, k, 0); }
    assert |k| > 1 ==> (Rest(k) + [f])[0] == k[0];
    HolderSwaps(tab, s, Step(tab, s, t), t, f);
  }

  lemma QueueAdds(w: Work, it: Item)
    ensures Queued(Queue(w, it)) == Queued(w) + multiset{it}
  {}

  lemma DropTakes(w: Work)
    requires w != Work([], [])
    ensures Queued(w) == Queued(DropWork(w)) + multiset{NextWork(w)}
  {
    if w.stables != [] {
      assert w.stables == w.stables[..|w.stables| - 1] + [NextWork(w)];
    } else {
      assert w.objects == w.objects[..|w.objects| - 1] + [NextWork(w)];
    }
  }

  /** Conservation: what is queued or in hand is filled, once, and not complete. */
  lemma PendingIsFilled(r: Roots, w: Work, k: seq<Frame>, x: Item)
    requires Conserved(r, w, k) && (x in w.stables || x in w.objects || x in Carried(k))
    ensures x in r.ids && x !in r.done
  {
    var pending := Queued(w) + Carried(k);
    assert pending[x] >= 1;
    assert multiset(r.ids.Keys)[x] == multiset(r.done)[x] + pending[x];
  }

  /** The work loop takes an item. */
  lemma TakeInv(tab: Tables, s: State, t: nat)
    requires Inv(tab, s) && Enabled(s, t) && s.sync.owner == Some(t)
    requires Top(Stack(s, t)).Loop? && s.work != Work([], [])
    ensures Inv(tab, Step(tab, s, t))
  {
    var k, cur := Stack(s, t), NextWork(s.work);
    var f := Deserialize(Top(k).it, cur, 0, Save(s.reader));
    assert |k| == 1 && Rest(k) == [] && Rest(k) + [f] == [f];
    PendingIsFilled(s.roots, s.work, k, cur);
    TakeStack(tab, s.roots, s.reader, k, f);
    TakeConserves(s.roots, s.work, k, f);
    HolderState(tab, s, Step(tab, s, t), t, [f]);
  }

  lemma TakeStack(tab: Tables, r: Roots, d: Reader, k: seq<Frame>, f: Frame)
    requires |k| == 1 && k[0].Loop? && Shape(tab, k) && ReaderOk(tab, d, k)
    requires f.Deserialize? && f == Deserialize(k[0].it, f.cur, 0, Save(d)) && f.cur in r.ids && f.it in r.ids
    ensures Shape(tab, [f]) && FramesOk(tab, r, [f])
    ensures ReaderOk(tab, Seek(d, f.cur, Offset(tab, f.cur)), [f])
  {
    assert Rest(k) == [] && Rest([f]) == [] && FramesOk(tab, r, []) && SavesOk(tab, []) && Chain(tab, []);
  }

  lemma TakeConserves(r: Roots, w: Work, k: seq<Frame>, f: Frame)
    requires |k| == 1 && k[0].Loop? && w != Work([], []) && f.Deserialize? && f.cur == NextWork(w)
    requires Conserved(r, w, k)
    ensures Conserved(r, DropWork(w), [f])
  {
    assert Rest(k) == [] && Rest([f]) == [] && Carried([]) == multiset{};
    DropTakes(w);
  }

  /** The references of the item at hand are demanded one by one; then it is complete. */
  lemma DeserializeInv(tab: Tables, s: State, t: nat)
    requires WellFormed(tab) && Inv(tab, s) && Enabled(s, t) && s.sync.owner == Some(t) && Top(Stack(s, t)).Deserialize?
    ensures Inv(tab, Step(tab, s, t))
  {
    var k := Stack(s, t);
    var f := Top(k);
    if f.k < |Refs(tab, f.cur)| {
      RefsInRange(tab, f.cur, f.k);
      Descend(tab, s, t, k, Refs(tab, f.cur)[f.k], Advance(s.reader));
    } else {
      var k' := [Loop(f.it)];
      assert |k| == 1 && Rest(k) == [] && Rest(k) + k' == k';
      CompleteStack(tab, s, k);
      HolderState(tab, s, Step(tab, s, t), t, k');
    }
  }

  lemma RefsInRange(tab: Tables, it: Item, k: nat)
    requires WellFormed(tab) && k < |Refs(tab, it)|
    ensures InRange(tab, Refs(tab, it)[k])
  {
    match it
    case Obj(i) => assert tab.objects[i] in tab.objects;
    case St(i) => assert tab.stables[i] in tab.stables;
  }

  lemma CompleteStack(tab: Tables, s: State, k: seq<Frame>)
    requires |k| == 1 && k[0].Deserialize? && k[0].k >= |Refs(tab, k[0].cur)|
    requires FramesOk(tab, s.roots, k) && ReaderOk(tab, s.reader, k) && Conserved(s.roots, s.work, k)
    requires Closed(tab, s.roots) && Typed(tab, s.roots)
    ensures var f, k' := k[0], [Loop(k[0].it)];
            var r := Complete(s.roots, f.cur);
            && FramesOk(tab, r, k') && ReaderOk(tab, RestoreAfter(s.reader, f.saved, f.cur), k')
            && Conserved(r, s.work, k') && Closed(tab, r) && Typed(tab, r)
  {
    var f, k' := k[0], [Loop(k[0].it)];
    assert Rest(k) == [] && Rest(k') == [] && Carried([]) == multiset{};
    assert FramesOk(tab, Complete(s.roots, f.cur), []);
    PendingIsFilled(s.roots, s.work, k, f.cur);
    assert Refs(tab, f.cur)[..f.k] == Refs(tab, f.cur);
    OneMore(s.roots.done, f.cur);
  }

  /** A nested call returns and its caller goes on. */
  lemma ReturnInv(tab: Tables, s: State, t: nat)
    requires Inv(tab, s) && Enabled(s, t) && s.sync.owner == Some(t) && Top(Stack(s, t)).Return?
    ensures Inv(tab, Step(tab, s, t))
  {
    var k := Stack(s, t);
    var rest := Rest(k);
    var k' := Rest(rest) + [Resume(Top(rest))];
    ResumeStack(tab, s.roots, s.reader, k);
    assert |k| > 2 ==> k'[0] == k[0];
    HolderState(tab, s, Step(tab, s, t), t, k');
  }

  lemma ResumeStack(tab: Tables, r: Roots, d: Reader, k: seq<Frame>)
    requires |k| >= 2 && Shape(tab, k) && FramesOk(tab, r, k) && ReaderOk(tab, d, k) && Top(k).Return?
    ensures var rest := Rest(k);
            var k' := Rest(rest) + [Resume(Top(rest))];
            && Waiting(Top(rest)) && Rest(k') == Rest(rest) && Top(k') == Resume(Top(rest))
            && Shape(tab, k') && FramesOk(tab, r, k') && ReaderOk(tab, d, k') && Carried(k') == Carried(k)
  {
    var rest := Rest(k);
    var f := Top(rest);
    var k' := Rest(rest) + [Resume(f)];
    assert Rest(k') == Rest(rest) && Chain(tab, rest);
    ResumeFrame(tab, r, f, Top(k).it, |rest| == 1);
    ResumeReader(tab, d, k, k');
  }

  lemma ResumeFrame(tab: Tables, r: Roots, f: Frame, x: Item, bottom: bool)
    requires FrameOk(tab, r, f, bottom) && Wants(tab, f, x) && x in r.ids
    ensures FrameOk(tab, r, Resume(f), bottom)
  {
    if f.Deserialize? {
      assert Refs(tab, f.cur)[..f.k + 1] == Refs(tab, f.cur)[..f.k] + [x];
    }
  }

  lemma ResumeReader(tab: Tables, d: Reader, k: seq<Frame>, k': seq<Frame>)
    requires |k| >= 2 && ReaderOk(tab, d, k) && Top(k).Return? && Waiting(Top(Rest(k)))
    requires k' != [] && Rest(k') == Rest(Rest(k)) && Top(k') == Resume(Top(Rest(k)))
    ensures ReaderOk(tab, d, k')
  {
    assert Position(tab, k, true) == Position(tab, Rest(k), false) && SavesOk(tab, Rest(k));
  }

  /** Every step keeps the invariant. */
  lemma StepInv(tab: Tables, s: State, t: nat)
    requires WellFormed(tab) && Inv(tab, s) && Enabled(s, t)
    ensures Inv(tab, Step(tab, s, t))
  {
    var f := Top(Stack(s, t));
    if f.Lock? {
      LockInv(tab, s, t);
    } else if s.sync.owner != Some(t) {
      IdleStepInv(tab, s, t);
    } else if Plain(f) || (f.Loop? && s.work == Work([], [])) {
      PlainInv(tab, s, t);
    } else {
      match f
      case HitUnlock(_) => ReleaseInv(tab, s, t);
      case Unlock(_) => ReleaseInv(tab, s, t);
      case Stub(it) => if it.Obj? { StubObjectInv(tab, s, t); } else { FillInv(tab, s, t); }
      case StubAlloc(_) => FillInv(tab, s, t);
      case StubSize(_, _, _) => StubSizeInv(tab, s, t);
      case Enqueue(_) => EnqueueInv(tab, s, t);
      case Loop(_) => TakeInv(tab, s, t);
      case Deserialize(_, _, _, _) => DeserializeInv(tab, s, t);
      case Return(_) => ReturnInv(tab, s, t);
      case _ =>
    }
  }
}
