/**
 The mapping client under concurrent callers and tables that change at any moment.  A scan reads the
 method's list once and each entry when it comes to it; between these reads the mapping service may
 rewrite the tables, and other callers may look up, scan and save.
 */
module MappingSteps {
  import opened Wrappers
  import opened Colons
  import opened Mapping

  type Caller = nat

  datatype Phase =
    | Hit(id: string)                                // a cached id, its entry not read yet
    | Missed                                         // the list is to be read
    | Scanning(ids: seq<string>, k: nat)             // entries before k did not select the path
    | Chosen(id: string, rm: RedisMapping)           // a match, not saved yet
    | Done(r: Resolution)

  datatype System = System(tables: Tables, lookup: LookupCache, phases: map<Caller, Phase>)

  datatype Step =
    | Publish(tables: Tables)
    | Lookup(c: Caller)
    | Detail(c: Caller)
    | List(c: Caller)
    | Fetch(c: Caller)
    | Save(c: Caller)

  /** What each caller asks for, and when it saves what it finds. */
  datatype Ask = Ask(call: Call, savedAt: int)

  type Asks = Caller -> Ask

  predicate Enabled(s: System, step: Step) {
    match step
    case Publish(_) => true
    case Lookup(c) => c !in s.phases
    case Detail(c) => c in s.phases && s.phases[c].Hit?
    case List(c) => c in s.phases && s.phases[c].Missed?
    case Fetch(c) => c in s.phases && s.phases[c].Scanning?
    case Save(c) => c in s.phases && s.phases[c].Chosen?
  }

  function KeyOf(call: Call): string {
    LookupKey(call.verb, call.path)
  }

  function NextPhase(eng: Engine, asks: Asks, s: System, step: Step): Phase
    requires Enabled(s, step) && !step.Publish?
  {
    var call := asks(step.c).call;
    match step
    case Lookup(_) =>
      (match CachedId(s.lookup, call)
       case Some(id) => Hit(id)
       case None => Missed)
    case Detail(c) => Done(Details(s.tables, call, s.phases[c].id))
    case List(_) =>
      if call.faults.listFails then Done(LookupFailed(None)) else Scanning(Ids(s.tables, call.verb), 0)
    case Fetch(c) =>
      var ids, k := s.phases[c].ids, s.phases[c].k;
      if k >= |ids| then Done(Unmatched)
      else if Selects(eng, s.tables, call.faults.unreadable, ids[k], call.path) then
        Chosen(ids[k], Load(s.tables, call.faults.unreadable, ids[k]).value)
      else Scanning(ids, k + 1)
    case Save(c) => Done(ResolveTo(call, s.phases[c].id, s.phases[c].rm))
  }

  function LookupAfter(asks: Asks, s: System, step: Step): LookupCache
    requires Enabled(s, step)
  {
    if step.Save? && !asks(step.c).call.faults.writeFails then
      s.lookup[KeyOf(asks(step.c).call) := Cached(s.phases[step.c].id, asks(step.c).savedAt + LOOKUP_TTL)]
    else s.lookup
  }

  function Next(eng: Engine, asks: Asks, s: System, step: Step): System
    requires Enabled(s, step)
  {
    System(if step.Publish? then step.tables else s.tables, LookupAfter(asks, s, step),
           if step.Publish? then s.phases else s.phases[step.c := NextPhase(eng, asks, s, step)])
  }

  function Init(steps: seq<Step>): seq<Step>
    requires steps != []
  {
    steps[..|steps| - 1]
  }

  function Last(steps: seq<Step>): Step
    requires steps != []
  {
    steps[|steps| - 1]
  }

  predicate IsRun(eng: Engine, asks: Asks, start: Tables, steps: seq<Step>)
    decreases |steps|, 0
  {
    steps == [] ||
    (IsRun(eng, asks, start, Init(steps)) && Enabled(AfterSteps(eng, asks, start, Init(steps)), Last(steps)))
  }

  function AfterSteps(eng: Engine, asks: Asks, start: Tables, steps: seq<Step>): System
    requires IsRun(eng, asks, start, steps)
    decreases |steps|, 1
  {
    if steps == [] then System(start, map[], map[])
    else Next(eng, asks, AfterSteps(eng, asks, start, Init(steps)), Last(steps))
  }

  /** The tables at some point of a sequence of steps. */
  function TablesAfter(start: Tables, steps: seq<Step>): Tables {
    if steps == [] then start
    else if Last(steps).Publish? then Last(steps).tables
    else TablesAfter(start, Init(steps))
  }

  lemma {:induction false} TablesAreThose(eng: Engine, asks: Asks, start: Tables, steps: seq<Step>)
    requires IsRun(eng, asks, start, steps)
    ensures AfterSteps(eng, asks, start, steps).tables == TablesAfter(start, steps)
  {
    if steps == [] {
    } else {
      TablesAreThose(eng, asks, start, Init(steps));
    }
  }

  // ---------------------------------------------------------------- what a scan has seen

  /** Step f is the caller's read of this entry, and the entry as it then was selects the path or not. */
  ghost predicate ReadAt(eng: Engine, start: Tables, steps: seq<Step>, c: Caller, call: Call, f: int, id: string,
                         selects: bool)
  {
    && 0 <= f < |steps| && steps[f] == Fetch(c)
    && Selects(eng, TablesAfter(start, steps[..f]), call.faults.unreadable, id, call.path) == selects
  }

  /** The caller read this list at step l, and since then its first |fs| entries, one after the other, in vain. */
  ghost predicate Scanned(eng: Engine, asks: Asks, start: Tables, steps: seq<Step>, c: Caller, ids: seq<string>,
                          l: int, fs: seq<int>)
  {
    && 0 <= l < |steps| && steps[l] == List(c)
    && ids == Ids(TablesAfter(start, steps[..l]), asks(c).call.verb)
    && |fs| <= |ids|
    && (forall k | 0 <= k < |fs| ::
          l < fs[k] && ReadAt(eng, start, steps, c, asks(c).call, fs[k], ids[k], false))
    && (forall j, k | 0 <= j < k < |fs| :: fs[j] < fs[k])
  }

  lemma ScannedLasts(eng: Engine, asks: Asks, start: Tables, steps: seq<Step>, c: Caller, ids: seq<string>,
                     l: int, fs: seq<int>)
    requires steps != [] && Scanned(eng, asks, start, Init(steps), c, ids, l, fs)
    ensures Scanned(eng, asks, start, steps, c, ids, l, fs)
  {
    assert Init(steps)[..l] == steps[..l];
    forall k | 0 <= k < |fs| ensures ReadAt(eng, start, steps, c, asks(c).call, fs[k], ids[k], false) {
      ReadAtLasts(eng, start, steps, c, asks(c).call, fs[k], ids[k], false);
    }
  }

  lemma {:induction false} ScanningHistory(eng: Engine, asks: Asks, start: Tables, steps: seq<Step>, c: Caller,
                                           ids: seq<string>, k: nat) returns (l: int, fs: seq<int>)
    requires IsRun(eng, asks, start, steps) && c in AfterSteps(eng, asks, start, steps).phases
    requires AfterSteps(eng, asks, start, steps).phases[c] == Scanning(ids, k)
    ensures Scanned(eng, asks, start, steps, c, ids, l, fs) && |fs| == k
  {
    var n := |steps| - 1;
    assert steps[..n] == Init(steps);
    TablesAreThose(eng, asks, start, Init(steps));
    if Last(steps) == List(c) {
      l, fs := n, [];
    } else if Last(steps) == Fetch(c) {
      l, fs := ScanningHistory(eng, asks, start, Init(steps), c, ids, k - 1);
      ScannedLasts(eng, asks, start, steps, c, ids, l, fs);
      assert ReadAt(eng, start, steps, c, asks(c).call, n, ids[k - 1], false);
      fs := fs + [n];
    } else {
      l, fs := ScanningHistory(eng, asks, start, Init(steps), c, ids, k);
      ScannedLasts(eng, asks, start, steps, c, ids, l, fs);
    }
  }

  /**
   The caller's scan chose this entry: it was in the list as read, it selected the path when it was read,
   and every entry listed before it did not when that one was read.
   */
  ghost predicate ChoseAt(eng: Engine, asks: Asks, start: Tables, steps: seq<Step>, c: Caller, id: string,
                          ids: seq<string>, l: int, fs: seq<int>, f: int)
  {
    && Scanned(eng, asks, start, steps, c, ids, l, fs) && |fs| < |ids| && ids[|fs|] == id
    && (forall k | 0 <= k < |fs| :: fs[k] < f) && l < f
    && ReadAt(eng, start, steps, c, asks(c).call, f, id, true)
  }

  ghost predicate Chose(eng: Engine, asks: Asks, start: Tables, steps: seq<Step>, c: Caller, id: string) {
    exists ids, l, fs, f :: ChoseAt(eng, asks, start, steps, c, id, ids, l, fs, f)
  }

  lemma ReadAtLasts(eng: Engine, start: Tables, steps: seq<Step>, c: Caller, call: Call, f: int, id: string,
                    selects: bool)
    requires steps != [] && ReadAt(eng, start, Init(steps), c, call, f, id, selects)
    ensures ReadAt(eng, start, steps, c, call, f, id, selects)
  {
    assert Init(steps)[..f] == steps[..f];
  }

  lemma ChoseAtLasts(eng: Engine, asks: Asks, start: Tables, steps: seq<Step>, c: Caller, id: string,
                     ids: seq<string>, l: int, fs: seq<int>, f: int)
    requires steps != [] && ChoseAt(eng, asks, start, Init(steps), c, id, ids, l, fs, f)
    ensures ChoseAt(eng, asks, start, steps, c, id, ids, l, fs, f)
  {
    ScannedLasts(eng, asks, start, steps, c, ids, l, fs);
    ReadAtLasts(eng, start, steps, c, asks(c).call, f, id, true);
  }

  lemma ChoseLasts(eng: Engine, asks: Asks, start: Tables, steps: seq<Step>, c: Caller, id: string)
    requires steps != [] && Chose(eng, asks, start, Init(steps), c, id)
    ensures Chose(eng, asks, start, steps, c, id)
  {
    var ids, l, fs, f :| ChoseAt(eng, asks, start, Init(steps), c, id, ids, l, fs, f);
    ChoseAtLasts(eng, asks, start, steps, c, id, ids, l, fs, f);
  }

  /** The last step of the run is a read that makes the caller choose. */
  ghost predicate ChoosesLast(eng: Engine, asks: Asks, start: Tables, steps: seq<Step>, c: Caller, id: string) {
    && steps != [] && IsRun(eng, asks, start, steps) && Last(steps) == Fetch(c)
    && AfterSteps(eng, asks, start, steps).phases[c].Chosen? && AfterSteps(eng, asks, start, steps).phases[c].id == id
  }

  lemma ChosenIsRead(eng: Engine, asks: Asks, start: Tables, steps: seq<Step>, c: Caller, id: string)
    returns (ids: seq<string>, k: nat)
    requires ChoosesLast(eng, asks, start, steps, c, id)
    ensures c in AfterSteps(eng, asks, start, Init(steps)).phases
    ensures AfterSteps(eng, asks, start, Init(steps)).phases[c] == Scanning(ids, k) && k < |ids| && ids[k] == id
    ensures ReadAt(eng, start, steps, c, asks(c).call, |steps| - 1, id, true)
  {
    var phase := AfterSteps(eng, asks, start, Init(steps)).phases[c];
    ids, k := phase.ids, phase.k;
    assert steps[..|steps| - 1] == Init(steps);
    TablesAreThose(eng, asks, start, Init(steps));
  }

  lemma ChooseNow(eng: Engine, asks: Asks, start: Tables, steps: seq<Step>, c: Caller, id: string)
    requires ChoosesLast(eng, asks, start, steps, c, id)
    ensures Chose(eng, asks, start, steps, c, id)
  {
    var ids, k := ChosenIsRead(eng, asks, start, steps, c, id);
    var l, fs := ScanningHistory(eng, asks, start, Init(steps), c, ids, k);
    ScannedLasts(eng, asks, start, steps, c, ids, l, fs);
    assert ChoseAt(eng, asks, start, steps, c, id, ids, l, fs, |steps| - 1);
  }

  lemma {:induction false} ChosenHistory(eng: Engine, asks: Asks, start: Tables, steps: seq<Step>, c: Caller,
                                         id: string, rm: RedisMapping)
    requires IsRun(eng, asks, start, steps) && c in AfterSteps(eng, asks, start, steps).phases
    requires AfterSteps(eng, asks, start, steps).phases[c] == Chosen(id, rm)
    ensures Chose(eng, asks, start, steps, c, id)
  {
    if Last(steps) == Fetch(c) {
      ChooseNow(eng, asks, start, steps, c, id);
    } else {
      ChosenHistory(eng, asks, start, Init(steps), c, id, rm);
      ChoseLasts(eng, asks, start, steps, c, id);
    }
  }

  // ---------------------------------------------------------------- what the lookup cache holds

  /** Caller d shares the call's key and saved this id, which its scan had chosen. */
  ghost predicate SavedBy(eng: Engine, asks: Asks, start: Tables, steps: seq<Step>, d: Caller, call: Call, id: string) {
    SharesKey(asks(d).call, call) && Save(d) in steps && Chose(eng, asks, start, steps, d, id)
  }

  /** In every interleaving, every cached id was chosen by the scan of a caller sharing its key. */
  lemma {:induction false} CachedWasChosen(eng: Engine, asks: Asks, start: Tables, steps: seq<Step>, call: Call)
    returns (d: Caller)
    requires IsRun(eng, asks, start, steps)
    requires KeyOf(call) in AfterSteps(eng, asks, start, steps).lookup
    ensures var entry := AfterSteps(eng, asks, start, steps).lookup[KeyOf(call)];
            SavedBy(eng, asks, start, steps, d, call, entry.id) && entry.expiresAt == asks(d).savedAt + LOOKUP_TTL
  {
    var s, last := AfterSteps(eng, asks, start, Init(steps)), Last(steps);
    assert steps == Init(steps) + [last];
    if last.Save? && !asks(last.c).call.faults.writeFails && KeyOf(asks(last.c).call) == KeyOf(call) {
      d := last.c;
      SameKeyShares(asks(d).call, call);
      ChosenHistory(eng, asks, start, Init(steps), d, s.phases[d].id, s.phases[d].rm);
      ChoseLasts(eng, asks, start, steps, d, s.phases[d].id);
    } else {
      d := CachedWasChosen(eng, asks, start, Init(steps), call);
      var entry := AfterSteps(eng, asks, start, Init(steps)).lookup[KeyOf(call)];
      ChoseLasts(eng, asks, start, steps, d, entry.id);
    }
  }

  // ---------------------------------------------------------------- where an answer comes from

  /** The caller's own scan chose the id, or that of a caller who shares its key and saved it in time. */
  ghost predicate RestsOn(eng: Engine, asks: Asks, start: Tables, steps: seq<Step>, c: Caller, d: Caller, id: string) {
    && SharesKey(asks(d).call, asks(c).call) && Chose(eng, asks, start, steps, d, id)
    && (d == c || (Save(d) in steps && asks(c).call.now <= asks(d).savedAt + FIVE_MINUTES))
  }

  /** The id a caller's phase is about, if it has one. */
  function IdOf(phase: Phase): Option<string> {
    match phase
    case Hit(id) => Some(id)
    case Chosen(id, _) => Some(id)
    case Done(Resolved(id, _)) => Some(id)
    case Done(LookupFailed(attempted)) => attempted
    case _ => None
  }

  lemma RestsOnLasts(eng: Engine, asks: Asks, start: Tables, steps: seq<Step>, c: Caller, d: Caller, id: string)
    requires steps != [] && RestsOn(eng, asks, start, Init(steps), c, d, id)
    ensures RestsOn(eng, asks, start, steps, c, d, id)
  {
    assert steps == Init(steps) + [Last(steps)];
    ChoseLasts(eng, asks, start, steps, d, id);
  }

  /** The caller has come to this id. */
  ghost predicate Has(eng: Engine, asks: Asks, start: Tables, steps: seq<Step>, c: Caller, id: string) {
    && IsRun(eng, asks, start, steps) && c in AfterSteps(eng, asks, start, steps).phases
    && IdOf(AfterSteps(eng, asks, start, steps).phases[c]) == Some(id)
  }

  /**
   Provenance of every answer, with any number of callers interleaving and tables that change between any
   two reads: the id a caller uses, whether its entry then loads or not, was chosen by a scan for the same
   method and path, unless methods hold colons - its own, or one saved at most 300 seconds before - and a
   scan chooses an entry of the list it read that selected the path when it was read, while none listed
   before it did when it was read.
   */
  lemma {:induction false} EveryIdWasChosen(eng: Engine, asks: Asks, start: Tables, steps: seq<Step>, c: Caller,
                                            id: string) returns (d: Caller)
    requires Has(eng, asks, start, steps, c, id)
    ensures RestsOn(eng, asks, start, steps, c, d, id)
    decreases |steps|
  {
    assert steps == Init(steps) + [Last(steps)];
    if Last(steps) == Lookup(c) {
      d := CachedWasChosen(eng, asks, start, Init(steps), asks(c).call);
      ChoseLasts(eng, asks, start, steps, d, id);
    } else if Last(steps) == Fetch(c) {
      d := c;
      SameKeyShares(asks(c).call, asks(c).call);
      ChooseNow(eng, asks, start, steps, c, id);
    } else {
      d := EveryIdWasChosen(eng, asks, start, Init(steps), c, id);
      RestsOnLasts(eng, asks, start, steps, c, d, id);
    }
  }

  /** A caller told that nothing matches has read every listed entry, and none selected the path then. */
  lemma {:induction false} UnmatchedReadAll(eng: Engine, asks: Asks, start: Tables, steps: seq<Step>, c: Caller)
    returns (ids: seq<string>, l: int, fs: seq<int>)
    requires IsRun(eng, asks, start, steps) && c in AfterSteps(eng, asks, start, steps).phases
    requires AfterSteps(eng, asks, start, steps).phases[c] == Done(Unmatched)
    ensures Scanned(eng, asks, start, steps, c, ids, l, fs) && |fs| == |ids|
  {
    if Last(steps) == Fetch(c) {
      var phase := AfterSteps(eng, asks, start, Init(steps)).phases[c];
      ids := phase.ids;
      l, fs := ScanningHistory(eng, asks, start, Init(steps), c, ids, phase.k);
    } else {
      ids, l, fs := UnmatchedReadAll(eng, asks, start, Init(steps), c);
    }
    ScannedLasts(eng, asks, start, steps, c, ids, l, fs);
  }

  // ---------------------------------------------------------------- fixed tables

  lemma {:induction false} TablesStay(start: Tables, steps: seq<Step>)
    requires forall i | 0 <= i < |steps| :: !steps[i].Publish?
    ensures TablesAfter(start, steps) == start
  {
    if steps == [] {
    } else {
      TablesStay(start, Init(steps));
    }
  }

  /**
   Agreement in every interleaving: while the tables are not rewritten, and with table reads that do not
   fail, every id a caller uses is the uncached scan's.
   */
  lemma AgreesWithScan(eng: Engine, asks: Asks, start: Tables, steps: seq<Step>, c: Caller, id: string)
    requires (forall d: Caller :: ColonFree(asks(d).call.verb)) && Has(eng, asks, start, steps, c, id)
    requires forall i | 0 <= i < |steps| :: !steps[i].Publish?
    requires forall d: Caller :: !asks(d).call.faults.listFails && asks(d).call.faults.unreadable == {}
    ensures Uncached(eng, start, asks(c).call).Resolved? && Uncached(eng, start, asks(c).call).id == id
  {
    var d := EveryIdWasChosen(eng, asks, start, steps, c, id);
    var ids, l, fs, f :| ChoseAt(eng, asks, start, steps, d, id, ids, l, fs, f);
    ChoiceIsFirst(eng, asks, start, steps, d, id, ids, l, fs, f);
    assert ColonFree(asks(c).call.verb) && ColonFree(asks(d).call.verb);
    SameScan(eng, start, asks(d).call, asks(c).call, id);
    FirstMatchUnique(eng, start, asks(c).call, id);
  }

  /** Over tables that stay as they are, a scan chooses the first match. */
  lemma ChoiceIsFirst(eng: Engine, asks: Asks, start: Tables, steps: seq<Step>, c: Caller, id: string,
                      ids: seq<string>, l: int, fs: seq<int>, f: int)
    requires ChoseAt(eng, asks, start, steps, c, id, ids, l, fs, f)
    requires forall i | 0 <= i < |steps| :: !steps[i].Publish?
    ensures IsFirstMatch(eng, start, asks(c).call, id)
  {
    var call := asks(c).call;
    TablesStay(start, steps[..l]);
    TablesStay(start, steps[..f]);
    forall k | 0 <= k < |fs| ensures !Selects(eng, start, call.faults.unreadable, ids[k], call.path) {
      assert ReadAt(eng, start, steps, c, call, fs[k], ids[k], false);
      TablesStay(start, steps[..fs[k]]);
    }
    assert FirstAt(eng, start, call, |fs|);
  }

  // ---------------------------------------------------------------- a caller alone

  /** The next step of a caller on its way. */
  function OwnStep(s: System, c: Caller): Step
    requires c in s.phases && !s.phases[c].Done?
  {
    match s.phases[c]
    case Hit(_) => Detail(c)
    case Missed => List(c)
    case Scanning(_, _) => Fetch(c)
    case Chosen(_, _) => Save(c)
  }

  /** How many steps a caller has before it at most. */
  function Rank(asks: Asks, s: System, c: Caller): nat
    requires c in s.phases
  {
    match s.phases[c]
    case Hit(_) => 1
    case Missed => |Ids(s.tables, asks(c).call.verb)| + 3
    case Scanning(ids, k) => if k <= |ids| then |ids| - k + 2 else 2
    case Chosen(_, _) => 1
    case Done(_) => 0
  }

  /** The rest of a call whose steps run one after the other. */
  function Finished(eng: Engine, asks: Asks, s: System, c: Caller): System
    requires c in s.phases
    decreases Rank(asks, s, c)
  {
    if s.phases[c].Done? then s else Finished(eng, asks, Next(eng, asks, s, OwnStep(s, c)), c)
  }

  /** What a scan that runs alone from its k-th entry comes to. */
  lemma {:induction false} ScanAlone(eng: Engine, asks: Asks, s: System, c: Caller, k: nat)
    requires c in s.phases && s.phases[c] == Scanning(Ids(s.tables, asks(c).call.verb), k)
    requires asks(c).savedAt == asks(c).call.now
    ensures var r, t := ScanFrom(eng, s.tables, asks(c).call, k), Finished(eng, asks, s, c);
            && t.tables == s.tables && t.phases == s.phases[c := Done(r)]
            && t.lookup == if r.Resolved? && !asks(c).call.faults.writeFails
                           then s.lookup[KeyOf(asks(c).call) := Cached(r.id, asks(c).call.now + LOOKUP_TTL)]
                           else s.lookup
    decreases Rank(asks, s, c)
  {
    var ids := Ids(s.tables, asks(c).call.verb);
    var next := Next(eng, asks, s, Fetch(c));
    if k >= |ids| {
    } else if Selects(eng, s.tables, asks(c).call.faults.unreadable, ids[k], asks(c).call.path) {
      assert Finished(eng, asks, next, c) == Next(eng, asks, next, Save(c));
    } else {
      ScanAlone(eng, asks, next, c, k + 1);
      assert next.phases[c := Done(ScanFrom(eng, s.tables, asks(c).call, k))]
          == s.phases[c := Done(ScanFrom(eng, s.tables, asks(c).call, k))];
    }
  }

  /**
   A call that runs alone, from any state, answers and leaves the lookup cache as the serial model says, and
   changes nothing else.
   */
  lemma AloneIsAnswer(eng: Engine, asks: Asks, s: System, c: Caller)
    requires c !in s.phases && asks(c).savedAt == asks(c).call.now
    ensures var call, t := asks(c).call, Finished(eng, asks, Next(eng, asks, s, Lookup(c)), c);
            && t.tables == s.tables && t.lookup == NextLookup(eng, s.tables, s.lookup, call)
            && t.phases == s.phases[c := Done(Answer(eng, s.tables, s.lookup, call))]
  {
    var call, looked := asks(c).call, Next(eng, asks, s, Lookup(c));
    var next := Next(eng, asks, looked, OwnStep(looked, c));
    if CachedId(s.lookup, call).None? && !call.faults.listFails {
      ScanAlone(eng, asks, next, c, 0);
    }
  }
}
