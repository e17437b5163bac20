/**
 The parallel search of Source/RKSortedRegexCollection.m:352-398: any number of worker threads
 run threadMatchEntryFunction over one shared match state. Each access to a shared field is a
 step of its own; guards made of several reads of fields that only ever move one way are one step.
 */
module ParallelSearch {
  import opened Base

  /** RKUIntegerMax: no matching index known. */
  const NO_INDEX: nat := 0xFFFF_FFFF_FFFF_FFFF

  /** The collection searched: its regexes, the order they are tried in, and whether it is a set. */
  datatype Collection = Collection(regexes: seq<nat>, sorted: seq<nat>, isSet: bool) {
    predicate Valid() {
      && |sorted| == |regexes| < NO_INDEX
      && (forall i :: 0 <= i < |sorted| ==> sorted[i] < |regexes|)
    }

    function Count(): nat {
      |sorted|
    }

    function RegexAt(slot: nat): nat
      requires Valid() && slot < Count()
    {
      regexes[sorted[slot]]
    }
  }

  /** One search: the collection, the mode, and the matcher, which says which regexes match the subject. */
  datatype Query = Query(collection: Collection, findLowest: bool, matches: nat -> bool) {
    predicate Hit(slot: nat)
      requires collection.Valid() && slot < collection.Count()
    {
      matches(collection.RegexAt(slot))
    }

    /** Line 376: a hit in this slot is published; in lowest-index mode only index 0 is. */
    predicate Publishes(slot: nat)
      requires collection.Valid() && slot < collection.Count()
    {
      !findLowest || collection.isSet || collection.sorted[slot] == 0
    }
  }

  datatype Pc =
    | Enter          // line 356
    | Claim          // lines 357 and 364
    | Guard          // lines 359-362
    | Bound          // line 369
    | Match          // line 374
    | Publish        // line 377
    | SetSorted      // line 378
    | SetCollection  // line 379
    | SetFinished    // line 380
    | LowTest        // line 384: the comparison
    | LowRead        // line 384: reading the expected value
    | LowSwap        // line 384: the compare-and-swap
    | Tail           // line 391
    | Last           // line 395
    | Done

  datatype Worker = Worker(pc: Pc, slot: nat, expected: nat)

  /** A history variable: what has become of a sorted slot. */
  datatype Fate =
    | Unclaimed
    | InFlight(worker: nat)  // claimed, not decided
    | Tested(worker: nat)    // tried against the subject
    | Skipped(worker: nat)   // its index is above the one on record, line 369
    | Dropped(worker: nat)   // the claimant left the loop at lines 359-362

  /** RKSortedRegexCollectionThreadMatchState, the workers, and the history variables. */
  datatype State = State(
    atSortedIndex: nat, highest: nat, finished: bool,
    matched: Option<nat>, matchingSorted: nat, matchingCollection: nat,
    workers: seq<Worker>, fates: seq<Fate>, publisher: Option<nat>, finisher: Option<nat>)

  /** The worker has claimed a slot and not yet decided what becomes of it. */
  predicate Holds(pc: Pc) {
    pc.Guard? || pc.Bound? || pc.Match?
  }

  predicate ClaimsNext(pc: Pc) {
    pc.Enter? || pc.Claim?
  }

  predicate Decides(pc: Pc) {
    pc.Guard? || pc.Bound?
  }

  predicate Announces(pc: Pc) {
    pc.SetSorted? || pc.SetCollection? || pc.SetFinished?
  }

  predicate Tries(pc: Pc) {
    pc.Match? || pc.Publish? || Announces(pc)
  }

  predicate Lowers(pc: Pc) {
    pc.LowTest? || pc.LowRead? || pc.LowSwap?
  }

  predicate Leaves(pc: Pc) {
    pc.Last? || pc.Done?
  }

  /** The worker is past the loop's guard, so its slot exists. */
  predicate Engaged(pc: Pc) {
    pc.Bound? || pc.Match? || pc.Publish? || Announces(pc) || Lowers(pc) || pc.Tail?
  }

  predicate Shaped(q: Query, s: State) {
    && q.collection.Valid() && |s.fates| == q.collection.Count()
    && forall w :: 0 <= w < |s.workers| ==>
         Engaged(s.workers[w].pc) ==> s.workers[w].slot < q.collection.Count()
  }

  function Goes(s: State, w: nat, pc: Pc): State
    requires w < |s.workers|
  {
    s.(workers := s.workers[w := s.workers[w].(pc := pc)])
  }

  function Marked(s: State, slot: nat, f: Fate): State {
    if slot < |s.fates| then s.(fates := s.fates[slot := f]) else s
  }

  /** Setting finished; the history variable keeps the first worker that did. */
  function Finished(s: State, w: nat): State {
    s.(finished := true, finisher := if s.finished then s.finisher else Some(w))
  }

  /** Claiming the next slot. */
  function Claiming(q: Query, s: State, w: nat): State
    requires Shaped(q, s) && w < |s.workers| && ClaimsNext(s.workers[w].pc)
  {
    var x := s.workers[w];
    match x.pc
    case Enter =>
      Goes(s, w, if !s.finished && s.matched == None && s.atSortedIndex < q.collection.Count() then Claim else Last)
    case Claim =>
      Marked(s, s.atSortedIndex, InFlight(w)).(
        atSortedIndex := s.atSortedIndex + 1,
        workers := s.workers[w := x.(pc := Guard, slot := s.atSortedIndex)])
  }

  /** Deciding whether to try the slot. */
  function Deciding(q: Query, s: State, w: nat): State
    requires Shaped(q, s) && w < |s.workers| && Decides(s.workers[w].pc)
  {
    var x := s.workers[w];
    match x.pc
    case Guard =>
      if !s.finished && s.matched == None && x.slot < q.collection.Count() && s.highest > 0 then Goes(s, w, Bound)
      else Marked(Goes(s, w, Last), x.slot, Dropped(w))
    case Bound =>
      if q.collection.sorted[x.slot] > s.highest then Marked(Goes(s, w, Claim), x.slot, Skipped(w))
      else Goes(s, w, Match)
  }

  /** Trying the regex of the slot and publishing it. */
  function Publishing(q: Query, s: State, w: nat): State
    requires Shaped(q, s) && w < |s.workers| && Tries(s.workers[w].pc)
  {
    var x := s.workers[w];
    match x.pc
    case Match =>
      Marked(Goes(s, w, if !q.Hit(x.slot) then Tail else if q.Publishes(x.slot) then Publish else LowTest),
             x.slot, Tested(w))
    case Publish =>
      if s.matched == None then
        Goes(s, w, SetSorted).(matched := Some(q.collection.RegexAt(x.slot)), publisher := Some(w))
      else Goes(s, w, Last)
    case SetSorted => Goes(s, w, SetCollection).(matchingSorted := x.slot)
    case SetCollection => Goes(s, w, SetFinished).(matchingCollection := q.collection.sorted[x.slot])
    case SetFinished => Finished(Goes(s, w, Last), w)
  }

  /** Recording a lower matching index: the expected value is read again after the comparison. */
  function Lowering(q: Query, s: State, w: nat): State
    requires Shaped(q, s) && w < |s.workers| && Lowers(s.workers[w].pc)
  {
    var x := s.workers[w];
    match x.pc
    case LowTest => Goes(s, w, if s.highest > q.collection.sorted[x.slot] then LowRead else Claim)
    case LowRead => s.(workers := s.workers[w := x.(pc := LowSwap, expected := s.highest)])
    case LowSwap =>
      if s.highest == x.expected then Goes(s, w, Claim).(highest := q.collection.sorted[x.slot])
      else Goes(s, w, LowTest)
  }

  /** A regex that does not match, and the way out. */
  function Closing(q: Query, s: State, w: nat): State
    requires Shaped(q, s) && w < |s.workers| && (s.workers[w].pc.Tail? || s.workers[w].pc.Last?)
  {
    var n := q.collection.Count();
    match s.workers[w].pc
    case Tail =>
      if s.atSortedIndex >= n then Finished(Goes(s, w, Last), w) else Goes(s, w, Claim)
    case Last =>
      if s.matched != None || s.atSortedIndex >= n then Finished(Goes(s, w, Done), w)
      else Goes(s, w, Done)
  }

  /** The step of worker w. */
  function Next(q: Query, s: State, w: nat): State
    requires Shaped(q, s) && w < |s.workers| && s.workers[w].pc != Done
  {
    var pc := s.workers[w].pc;
    if ClaimsNext(pc) then Claiming(q, s, w)
    else if Decides(pc) then Deciding(q, s, w)
    else if Lowers(pc) then Lowering(q, s, w)
    else if Tries(pc) then Publishing(q, s, w)
    else Closing(q, s, w)
  }

  ghost predicate Initial(q: Query, s: State) {
    && q.collection.Valid()
    && s.atSortedIndex == 0 && s.highest == NO_INDEX && !s.finished && s.matched == None && s.publisher == None && s.finisher == None
    && |s.fates| == q.collection.Count()
    && (forall i :: 0 <= i < |s.fates| ==> s.fates[i] == Unclaimed)
    && (forall w :: 0 <= w < |s.workers| ==> s.workers[w].pc == Enter)
  }

  ghost predicate Step(q: Query, s: State, s': State) {
    Shaped(q, s) && exists w: nat :: w < |s.workers| && s.workers[w].pc != Done && s' == Next(q, s, w)
  }

  ghost predicate IsRun(q: Query, run: seq<State>) {
    && run != [] && Initial(q, run[0])
    && forall i :: 0 <= i < |run| - 1 ==> StepAt(q, run, i)
  }

  ghost predicate StepAt(q: Query, run: seq<State>, i: nat)
    requires i + 1 < |run|
  {
    Step(q, run[i], run[i + 1])
  }

  // ---------------------------------------------------------------------------------------
  // The invariant
  // ---------------------------------------------------------------------------------------

  /** The search is over for whoever looks: something is published or every slot is claimed. */
  predicate Over(q: Query, s: State) {
    s.matched.Some? || s.atSortedIndex >= q.collection.Count()
  }

  ghost predicate WorkerOk(q: Query, s: State, w: nat)
    requires Shaped(q, s) && w < |s.workers|
  {
    var x := s.workers[w];
    var n := q.collection.Count();
    && (Engaged(x.pc) || x.pc.Guard? ==> x.slot < s.atSortedIndex)
    && (Holds(x.pc) && x.slot < n ==> s.fates[x.slot] == InFlight(w))
    && (x.pc.Publish? || Announces(x.pc) ==>
          s.fates[x.slot] == Tested(w) && q.Hit(x.slot) && q.Publishes(x.slot))
    && (Lowers(x.pc) ==>
          s.fates[x.slot] == Tested(w) && q.Hit(x.slot) && !q.Publishes(x.slot))
    && (Announces(x.pc) ==> s.publisher == Some(w))
    && (Leaves(x.pc) ==> Over(q, s))
    && (x.pc.Done? ==> s.finished)
  }

  ghost predicate SlotOk(q: Query, s: State, i: nat)
    requires Shaped(q, s) && i < q.collection.Count()
  {
    && (s.fates[i] == Unclaimed <==> s.atSortedIndex <= i)
    && (s.fates[i].InFlight? ==> s.fates[i].worker < |s.workers|
                                 && s.workers[s.fates[i].worker].slot == i && Holds(s.workers[s.fates[i].worker].pc))
  }

  /** A hit is tested on the way to being published; a slot that could be published is never skipped. */
  ghost predicate TestOk(q: Query, s: State, i: nat)
    requires Shaped(q, s) && i < q.collection.Count()
  {
    && (s.fates[i].Tested? && q.Hit(i) && q.Publishes(i) && s.matched == None ==>
          s.fates[i].worker < |s.workers| && s.workers[s.fates[i].worker].slot == i && s.workers[s.fates[i].worker].pc == Publish)
    && (s.fates[i].Skipped? ==> !q.Publishes(i))
  }

  /** A slot is dropped by a worker that leaves, and never by the one that ended the search. */
  ghost predicate DropOk(q: Query, s: State, i: nat)
    requires Shaped(q, s) && i < q.collection.Count()
  {
    && (s.fates[i].Dropped? ==> s.finished || s.matched.Some?)
    && (s.fates[i].Dropped? ==> s.fates[i].worker < |s.workers|
                                && s.workers[s.fates[i].worker].slot == i && Leaves(s.workers[s.fates[i].worker].pc)
                                && (s.matched == None ==> s.finisher != Some(s.fates[i].worker)))
  }

  /** The published match: who published it, and how far he has got with announcing it. */
  ghost predicate PublishedOk(q: Query, s: State)
    requires Shaped(q, s)
  {
    && (s.matched.Some? <==> s.publisher.Some?)
    && (s.publisher.Some? ==>
          var p := s.publisher.value;
          && p < |s.workers|
          && var x := s.workers[p];
             && x.slot < q.collection.Count()
             && s.matched == Some(q.collection.RegexAt(x.slot)) && q.Hit(x.slot) && q.Publishes(x.slot)
             && s.fates[x.slot] == Tested(p)
             && (Announces(x.pc) || Leaves(x.pc))
             && (x.pc.SetCollection? || x.pc.SetFinished? || Leaves(x.pc) ==> s.matchingSorted == x.slot)
             && (x.pc.SetFinished? || Leaves(x.pc) ==> s.matchingCollection == q.collection.sorted[x.slot])
             && (Leaves(x.pc) ==> s.finished))
  }

  /** The index on record belongs to a regex that matches; the zero that line 362 looks for never occurs. */
  ghost predicate HighestOk(q: Query, s: State)
    requires Shaped(q, s)
  {
    || s.highest == NO_INDEX
    || (&& q.findLowest && !q.collection.isSet && 0 < s.highest < NO_INDEX
        && exists i: nat :: i < q.collection.Count() && q.collection.sorted[i] == s.highest && q.Hit(i)
                            && s.fates[i].Tested?)
  }

  ghost predicate FinisherOk(q: Query, s: State) {
    && (s.finished ==> Over(q, s))
    && (s.finished <==> s.finisher.Some?)
    && (s.finisher.Some? ==> s.finisher.value < |s.workers| && Leaves(s.workers[s.finisher.value].pc))
  }

  ghost predicate Inv(q: Query, s: State) {
    && Shaped(q, s)
    && (forall w :: 0 <= w < |s.workers| ==> WorkerOk(q, s, w))
    && (forall i :: 0 <= i < q.collection.Count() ==> SlotOk(q, s, i) && TestOk(q, s, i))
    && (forall i :: 0 <= i < q.collection.Count() ==> DropOk(q, s, i))
    && PublishedOk(q, s) && HighestOk(q, s)
    && FinisherOk(q, s)
  }

  lemma InitialInv(q: Query, s: State)
    requires Initial(q, s)
    ensures Inv(q, s)
  {
  }

  lemma KeepsShape(q: Query, s: State, w: nat)
    requires Shaped(q, s) && w < |s.workers| && s.workers[w].pc != Done
    ensures Shaped(q, Next(q, s, w))
  {
  }

  lemma KeepsHighest(q: Query, s: State, w: nat)
    requires Shaped(q, s) && w < |s.workers| && s.workers[w].pc != Done
    requires WorkerOk(q, s, w) && HighestOk(q, s)
    requires forall i :: 0 <= i < q.collection.Count() ==> SlotOk(q, s, i)
    ensures Shaped(q, Next(q, s, w)) && HighestOk(q, Next(q, s, w))
  {
    KeepsShape(q, s, w);
    var s' := Next(q, s, w);
    if s'.highest == s.highest != NO_INDEX {
      var i: nat :| i < q.collection.Count() && q.collection.sorted[i] == s.highest && q.Hit(i) && s.fates[i].Tested?;
      assert SlotOk(q, s, i);
      assert s'.fates[i].Tested?;
    } else if s'.highest != NO_INDEX {
      assert s'.fates[s.workers[w].slot].Tested?;
    }
  }

  lemma ClaimingKeepsWorker(q: Query, s: State, w: nat, v: nat)
    requires Shaped(q, s) && w < |s.workers| && ClaimsNext(s.workers[w].pc) && v < |s.workers|
    requires WorkerOk(q, s, w) && WorkerOk(q, s, v) && PublishedOk(q, s) && s.highest > 0 && FinisherOk(q, s)
    requires s.workers[v].slot < q.collection.Count() ==> SlotOk(q, s, s.workers[v].slot)
    ensures Shaped(q, Claiming(q, s, w)) && WorkerOk(q, Claiming(q, s, w), v)
  {
  }

  lemma DecidingKeepsMover(q: Query, s: State, w: nat)
    requires Shaped(q, s) && w < |s.workers| && Decides(s.workers[w].pc)
    requires WorkerOk(q, s, w) && PublishedOk(q, s) && s.highest > 0 && FinisherOk(q, s)
    ensures Shaped(q, Deciding(q, s, w)) && WorkerOk(q, Deciding(q, s, w), w)
  {
  }

  lemma DecidingKeepsBystander(q: Query, s: State, w: nat, v: nat)
    requires Shaped(q, s) && w < |s.workers| && Decides(s.workers[w].pc) && v < |s.workers| && v != w
    requires WorkerOk(q, s, w) && WorkerOk(q, s, v)
    requires s.workers[v].slot < q.collection.Count() ==> SlotOk(q, s, s.workers[v].slot)
    ensures Shaped(q, Deciding(q, s, w)) && WorkerOk(q, Deciding(q, s, w), v)
  {
  }

  lemma LoweringKeepsMover(q: Query, s: State, w: nat)
    requires Shaped(q, s) && w < |s.workers| && Lowers(s.workers[w].pc)
    requires WorkerOk(q, s, w) && PublishedOk(q, s) && s.highest > 0 && FinisherOk(q, s)
    ensures Shaped(q, Lowering(q, s, w)) && WorkerOk(q, Lowering(q, s, w), w)
  {
  }

  lemma LoweringKeepsBystander(q: Query, s: State, w: nat, v: nat)
    requires Shaped(q, s) && w < |s.workers| && Lowers(s.workers[w].pc) && v < |s.workers| && v != w
    requires WorkerOk(q, s, w) && WorkerOk(q, s, v)
    ensures Shaped(q, Lowering(q, s, w)) && WorkerOk(q, Lowering(q, s, w), v)
  {
  }

  lemma PublishingKeepsMover(q: Query, s: State, w: nat)
    requires Shaped(q, s) && w < |s.workers| && Tries(s.workers[w].pc)
    requires WorkerOk(q, s, w) && PublishedOk(q, s) && s.highest > 0 && FinisherOk(q, s)
    ensures Shaped(q, Publishing(q, s, w)) && WorkerOk(q, Publishing(q, s, w), w)
  {
  }

  lemma PublishingKeepsBystander(q: Query, s: State, w: nat, v: nat)
    requires Shaped(q, s) && w < |s.workers| && Tries(s.workers[w].pc) && v < |s.workers| && v != w
    requires WorkerOk(q, s, w) && WorkerOk(q, s, v) && PublishedOk(q, s)
    requires s.workers[v].slot < q.collection.Count() ==> SlotOk(q, s, s.workers[v].slot)
    ensures Shaped(q, Publishing(q, s, w)) && WorkerOk(q, Publishing(q, s, w), v)
  {
  }

  lemma ClosingKeepsMover(q: Query, s: State, w: nat)
    requires Shaped(q, s) && w < |s.workers| && (s.workers[w].pc.Tail? || s.workers[w].pc.Last?)
    requires WorkerOk(q, s, w) && PublishedOk(q, s) && s.highest > 0 && FinisherOk(q, s)
    ensures Shaped(q, Closing(q, s, w)) && WorkerOk(q, Closing(q, s, w), w)
  {
  }

  lemma ClosingKeepsBystander(q: Query, s: State, w: nat, v: nat)
    requires Shaped(q, s) && w < |s.workers| && (s.workers[w].pc.Tail? || s.workers[w].pc.Last?) && v < |s.workers| && v != w
    requires WorkerOk(q, s, w) && WorkerOk(q, s, v) && PublishedOk(q, s)
    requires s.workers[v].slot < q.collection.Count() ==> SlotOk(q, s, s.workers[v].slot)
    ensures Shaped(q, Closing(q, s, w)) && WorkerOk(q, Closing(q, s, w), v)
  {
  }

  lemma ClaimingKeepsSlot(q: Query, s: State, w: nat, i: nat)
    requires Shaped(q, s) && w < |s.workers| && ClaimsNext(s.workers[w].pc) && i < q.collection.Count()
    requires WorkerOk(q, s, w) && SlotOk(q, s, i)
    ensures Shaped(q, Claiming(q, s, w)) && SlotOk(q, Claiming(q, s, w), i)
  {
  }

  lemma ClaimingKeepsFate(q: Query, s: State, w: nat, i: nat)
    requires Shaped(q, s) && w < |s.workers| && ClaimsNext(s.workers[w].pc) && i < q.collection.Count()
    requires WorkerOk(q, s, w) && SlotOk(q, s, i) && TestOk(q, s, i) && DropOk(q, s, i) && FinisherOk(q, s)
    requires s.highest > 0 && (s.highest != NO_INDEX ==> q.findLowest && !q.collection.isSet)
    ensures Shaped(q, Claiming(q, s, w)) && TestOk(q, Claiming(q, s, w), i) && DropOk(q, Claiming(q, s, w), i)
  {
  }

  lemma DecidingKeepsSlot(q: Query, s: State, w: nat, i: nat)
    requires Shaped(q, s) && w < |s.workers| && Decides(s.workers[w].pc) && i < q.collection.Count()
    requires WorkerOk(q, s, w) && SlotOk(q, s, i)
    ensures Shaped(q, Deciding(q, s, w)) && SlotOk(q, Deciding(q, s, w), i)
  {
  }

  lemma DecidingKeepsFate(q: Query, s: State, w: nat, i: nat)
    requires Shaped(q, s) && w < |s.workers| && Decides(s.workers[w].pc) && i < q.collection.Count()
    requires WorkerOk(q, s, w) && SlotOk(q, s, i) && TestOk(q, s, i) && DropOk(q, s, i) && FinisherOk(q, s)
    requires s.highest > 0 && (s.highest != NO_INDEX ==> q.findLowest && !q.collection.isSet)
    ensures Shaped(q, Deciding(q, s, w)) && TestOk(q, Deciding(q, s, w), i) && DropOk(q, Deciding(q, s, w), i)
  {
  }

  lemma LoweringKeepsSlot(q: Query, s: State, w: nat, i: nat)
    requires Shaped(q, s) && w < |s.workers| && Lowers(s.workers[w].pc) && i < q.collection.Count()
    requires WorkerOk(q, s, w) && SlotOk(q, s, i) && TestOk(q, s, i) && DropOk(q, s, i) && FinisherOk(q, s)
    requires s.highest > 0 && (s.highest != NO_INDEX ==> q.findLowest && !q.collection.isSet)
    ensures Shaped(q, Lowering(q, s, w)) && SlotOk(q, Lowering(q, s, w), i) && TestOk(q, Lowering(q, s, w), i) && DropOk(q, Lowering(q, s, w), i)
  {
  }

  lemma PublishingKeepsSlot(q: Query, s: State, w: nat, i: nat)
    requires Shaped(q, s) && w < |s.workers| && Tries(s.workers[w].pc) && i < q.collection.Count()
    requires WorkerOk(q, s, w) && SlotOk(q, s, i)
    ensures Shaped(q, Publishing(q, s, w)) && SlotOk(q, Publishing(q, s, w), i)
  {
  }

  lemma PublishingKeepsTest(q: Query, s: State, w: nat, i: nat)
    requires Shaped(q, s) && w < |s.workers| && Tries(s.workers[w].pc) && i < q.collection.Count()
    requires WorkerOk(q, s, w) && SlotOk(q, s, i) && TestOk(q, s, i)
    ensures Shaped(q, Publishing(q, s, w)) && TestOk(q, Publishing(q, s, w), i)
  {
  }

  lemma PublishingKeepsDrop(q: Query, s: State, w: nat, i: nat)
    requires Shaped(q, s) && w < |s.workers| && Tries(s.workers[w].pc) && i < q.collection.Count()
    requires WorkerOk(q, s, w) && DropOk(q, s, i) && FinisherOk(q, s)
    ensures Shaped(q, Publishing(q, s, w)) && DropOk(q, Publishing(q, s, w), i)
  {
  }

  lemma ClosingKeepsSlot(q: Query, s: State, w: nat, i: nat)
    requires Shaped(q, s) && w < |s.workers| && (s.workers[w].pc.Tail? || s.workers[w].pc.Last?) && i < q.collection.Count()
    requires WorkerOk(q, s, w) && SlotOk(q, s, i) && TestOk(q, s, i) && DropOk(q, s, i) && FinisherOk(q, s)
    requires s.highest > 0 && (s.highest != NO_INDEX ==> q.findLowest && !q.collection.isSet)
    ensures Shaped(q, Closing(q, s, w)) && SlotOk(q, Closing(q, s, w), i) && TestOk(q, Closing(q, s, w), i) && DropOk(q, Closing(q, s, w), i)
  {
  }

  lemma ClaimingKeepsPublished(q: Query, s: State, w: nat)
    requires Shaped(q, s) && w < |s.workers| && ClaimsNext(s.workers[w].pc)
    requires WorkerOk(q, s, w) && PublishedOk(q, s) && FinisherOk(q, s)
    requires s.publisher.Some? ==> SlotOk(q, s, s.workers[s.publisher.value].slot)
    ensures Shaped(q, Claiming(q, s, w)) && PublishedOk(q, Claiming(q, s, w)) && FinisherOk(q, Claiming(q, s, w))
  {
  }

  lemma DecidingKeepsPublished(q: Query, s: State, w: nat)
    requires Shaped(q, s) && w < |s.workers| && Decides(s.workers[w].pc)
    requires WorkerOk(q, s, w) && PublishedOk(q, s) && FinisherOk(q, s)
    requires s.publisher.Some? ==> SlotOk(q, s, s.workers[s.publisher.value].slot)
    ensures Shaped(q, Deciding(q, s, w)) && PublishedOk(q, Deciding(q, s, w)) && FinisherOk(q, Deciding(q, s, w))
  {
  }

  lemma LoweringKeepsPublished(q: Query, s: State, w: nat)
    requires Shaped(q, s) && w < |s.workers| && Lowers(s.workers[w].pc)
    requires WorkerOk(q, s, w) && PublishedOk(q, s) && FinisherOk(q, s)
    requires s.publisher.Some? ==> SlotOk(q, s, s.workers[s.publisher.value].slot)
    ensures Shaped(q, Lowering(q, s, w)) && PublishedOk(q, Lowering(q, s, w)) && FinisherOk(q, Lowering(q, s, w))
  {
  }

  lemma PublishingKeepsPublished(q: Query, s: State, w: nat)
    requires Shaped(q, s) && w < |s.workers| && Tries(s.workers[w].pc)
    requires WorkerOk(q, s, w) && PublishedOk(q, s) && FinisherOk(q, s)
    requires s.publisher.Some? ==> SlotOk(q, s, s.workers[s.publisher.value].slot)
    ensures Shaped(q, Publishing(q, s, w)) && PublishedOk(q, Publishing(q, s, w)) && FinisherOk(q, Publishing(q, s, w))
  {
  }

  lemma ClosingKeepsPublished(q: Query, s: State, w: nat)
    requires Shaped(q, s) && w < |s.workers| && (s.workers[w].pc.Tail? || s.workers[w].pc.Last?)
    requires WorkerOk(q, s, w) && PublishedOk(q, s) && FinisherOk(q, s)
    requires s.publisher.Some? ==> SlotOk(q, s, s.workers[s.publisher.value].slot)
    ensures Shaped(q, Closing(q, s, w)) && PublishedOk(q, Closing(q, s, w)) && FinisherOk(q, Closing(q, s, w))
  {
  }

  lemma KeepsWorkers(q: Query, s: State, w: nat)
    requires Inv(q, s) && w < |s.workers| && s.workers[w].pc != Done
    ensures Shaped(q, Next(q, s, w))
    ensures forall v :: 0 <= v < |Next(q, s, w).workers| ==> WorkerOk(q, Next(q, s, w), v)
  {
    var s', pc := Next(q, s, w), s.workers[w].pc;
    assert WorkerOk(q, s, w);
    KeepsShape(q, s, w);
    forall v | 0 <= v < |s'.workers|
      ensures WorkerOk(q, s', v)
    {
      assert WorkerOk(q, s, v);
      if ClaimsNext(pc) {
        ClaimingKeepsWorker(q, s, w, v);
      } else if Decides(pc) {
        if v == w {
          DecidingKeepsMover(q, s, w);
        } else {
          DecidingKeepsBystander(q, s, w, v);
        }
      } else if Lowers(pc) {
        if v == w {
          LoweringKeepsMover(q, s, w);
        } else {
          LoweringKeepsBystander(q, s, w, v);
        }
      } else if Tries(pc) {
        if v == w {
          PublishingKeepsMover(q, s, w);
        } else {
          PublishingKeepsBystander(q, s, w, v);
        }
      } else {
        if v == w {
          ClosingKeepsMover(q, s, w);
        } else {
          ClosingKeepsBystander(q, s, w, v);
        }
      }
    }
  }

  lemma KeepsSlots(q: Query, s: State, w: nat)
    requires Inv(q, s) && w < |s.workers| && s.workers[w].pc != Done
    ensures Shaped(q, Next(q, s, w))
    ensures forall i :: 0 <= i < q.collection.Count() ==> SlotOk(q, Next(q, s, w), i) && TestOk(q, Next(q, s, w), i)
    ensures forall i :: 0 <= i < q.collection.Count() ==> DropOk(q, Next(q, s, w), i)
  {
    var s', pc := Next(q, s, w), s.workers[w].pc;
    assert WorkerOk(q, s, w);
    KeepsShape(q, s, w);
    forall i | 0 <= i < q.collection.Count()
      ensures SlotOk(q, s', i) && TestOk(q, s', i) && DropOk(q, s', i)
    {
      assert SlotOk(q, s, i) && TestOk(q, s, i) && DropOk(q, s, i);
      if ClaimsNext(pc) {
        ClaimingKeepsSlot(q, s, w, i);
        ClaimingKeepsFate(q, s, w, i);
      } else if Decides(pc) {
        DecidingKeepsSlot(q, s, w, i);
        DecidingKeepsFate(q, s, w, i);
      } else if Lowers(pc) {
        LoweringKeepsSlot(q, s, w, i);
      } else if Tries(pc) {
        PublishingKeepsSlot(q, s, w, i);
        PublishingKeepsTest(q, s, w, i);
        PublishingKeepsDrop(q, s, w, i);
      } else {
        ClosingKeepsSlot(q, s, w, i);
      }
    }
  }

  lemma StepKeepsInv(q: Query, s: State, w: nat)
    requires Inv(q, s) && w < |s.workers| && s.workers[w].pc != Done
    ensures Inv(q, Next(q, s, w))
  {
    var pc := s.workers[w].pc;
    assert WorkerOk(q, s, w);
    assert s.publisher.Some? ==> SlotOk(q, s, s.workers[s.publisher.value].slot);
    KeepsWorkers(q, s, w);
    KeepsSlots(q, s, w);
    KeepsHighest(q, s, w);
    if ClaimsNext(pc) {
      ClaimingKeepsPublished(q, s, w);
    } else if Decides(pc) {
      DecidingKeepsPublished(q, s, w);
    } else if Lowers(pc) {
      LoweringKeepsPublished(q, s, w);
    } else if Tries(pc) {
      PublishingKeepsPublished(q, s, w);
    } else {
      ClosingKeepsPublished(q, s, w);
    }
  }

  lemma RunStepKeepsInv(q: Query, run: seq<State>, i: nat)
    requires IsRun(q, run) && i + 1 < |run| && Inv(q, run[i])
    ensures Inv(q, run[i + 1])
  {
    assert StepAt(q, run, i);
    var w: nat :| w < |run[i].workers| && run[i].workers[w].pc != Done && run[i + 1] == Next(q, run[i], w);
    StepKeepsInv(q, run[i], w);
  }

  lemma {:induction false} RunInv(q: Query, run: seq<State>, i: nat)
    requires IsRun(q, run) && i < |run|
    ensures Inv(q, run[i])
  {
    if i == 0 {
      InitialInv(q, run[0]);
    } else {
      RunInv(q, run, i - 1);
      RunStepKeepsInv(q, run, i - 1);
    }
  }
}
