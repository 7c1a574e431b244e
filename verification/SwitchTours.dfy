/** An undisturbed sequence of switch commands visits every candidate, the LRU window and the origin. */
module SwitchTours {
  import opened Options
  import opened Seqs
  import opened Focus
  import opened Nodes
  import opened Listings
  import opened Switching

  /** What one command of the sequence finds; lists may be reordered from command to command. */
  datatype Env = Env(wins: seq<Node>, ticks: Ticks, pred: Node -> bool)

  function SwitchIn(d: Data, env: Env): (Data, Outcome) {
    Switch(d, env.wins, env.ticks, env.pred)
  }

  function Outcomes(d: Data, envs: seq<Env>): seq<Outcome>
    decreases |envs|
  {
    if envs == [] then [] else [SwitchIn(d, envs[0]).1] + Outcomes(SwitchIn(d, envs[0]).0, envs[1..])
  }

  function FinalData(d: Data, envs: seq<Env>): Data
    decreases |envs|
  {
    if envs == [] then d else FinalData(SwitchIn(d, envs[0]).0, envs[1..])
  }

  // ---------------------------------------------------------------------------------------
  // The world during a sequence, without reference to the engine's data

  /** The urgent or matching windows, as far as urgency counts. */
  function Eligible(env: Env, skipUrgent: bool): set<int> {
    set w | w in env.wins && ((!skipUrgent && w.urgent) || env.pred(w)) :: w.id
  }

  /** Two sets agree on the windows that have not had the focus. */
  predicate AgreeUnseen(a: set<int>, b: set<int>, seen: set<int>) {
    a - seen == b - seen
  }

  /**
   Nothing but the commands moves the focus, the origin and LRU windows stay open, and a window
   is eligible just as at the start until it has had the focus; `seen` are those that had it.
   */
  ghost predicate Undisturbed(d: Data, focus: int, elig: set<int>, seen: set<int>, origin: int, lru: int, envs: seq<Env>)
    decreases |envs|
  {
    envs != [] ==>
      && WellFormed(envs[0].wins) && FocusedId(envs[0].wins) == focus
      && (origin != NO_WINDOW ==> IsOpen(envs[0].wins, origin)) && IsOpen(envs[0].wins, lru)
      && AgreeUnseen(Eligible(envs[0], d.skipUrgent), elig, seen)
      && (SwitchIn(d, envs[0]).1.Switched? ==>
            var (d', out) := SwitchIn(d, envs[0]);
            Undisturbed(d', out.id, elig, seen + {out.id}, origin, lru, envs[1..]))
  }

  /** The windows the sequence keeps for its own step. */
  function Reserved(d: Data, lru: int): set<int> {
    if d.skipLru then {} else {lru}
  }

  // ---------------------------------------------------------------------------------------
  // What the engine makes of it

  /** The engine's own candidates for the urgent-or-matching step. */
  function Candidates(d: Data, env: Env): set<int> {
    var e := Entered(d, env.wins, env.ticks);
    set w | w in env.wins && Candidate(w, e, FocusedId(env.wins), env.pred) :: w.id
  }

  /** The origin a sequence remembers: none if it started without a focused window. */
  function OriginOf(origin: int): Option<int> {
    if origin == NO_WINDOW then None else Some(origin)
  }

  /** The sequence ends with a return to its origin. */
  predicate Returns(d: Data, origin: int) {
    !d.skipOrigin && origin != NO_WINDOW
  }

  /** In the middle of a sequence, as seen after the entry bookkeeping: visited are the windows seen. */
  ghost predicate Touring(e: Data, focus: int, seen: set<int>, origin: int, lru: int) {
    && e.visited != [] && focus in seen && origin in seen
    && (forall id :: id in e.visited <==> id in seen)
    && e.origin == OriginOf(origin) && e.lru == Some(lru) && lru != origin
  }

  /** The engine's candidates are the eligible windows that were not seen and are not reserved. */
  lemma CandidatesAreUnseen(d: Data, env: Env, elig: set<int>, seen: set<int>, origin: int, lru: int)
    requires Touring(Entered(d, env.wins, env.ticks), FocusedId(env.wins), seen, origin, lru)
    requires AgreeUnseen(Eligible(env, d.skipUrgent), elig, seen)
    ensures Candidates(d, env) == elig - seen - Reserved(d, lru)
  {
    var e := Entered(d, env.wins, env.ticks);
    forall id
      ensures id in Candidates(d, env) <==> id in Eligible(env, d.skipUrgent) && id !in seen && id !in Reserved(d, lru)
    {
      if id in Eligible(env, d.skipUrgent) && id !in seen && id !in Reserved(d, lru) {
        var w :| w in env.wins && ((!d.skipUrgent && w.urgent) || env.pred(w)) && w.id == id;
        assert Candidate(w, e, FocusedId(env.wins), env.pred);
      }
    }
    assert forall id :: id !in seen ==> (id in Eligible(env, d.skipUrgent) <==> id in Eligible(env, d.skipUrgent) - seen);
    assert forall id :: id !in seen ==> (id in elig <==> id in elig - seen);
  }

  /** The invocation needs no second pass. */
  predicate PassesOnce(d: Data, env: Env) {
    Pass(d, env.wins, env.ticks, env.pred) == SwitchIn(d, env)
  }

  /** While candidates remain, the step goes to one of them. */
  lemma CandidateStep(d: Data, env: Env)
    requires Candidates(d, env) != {}
    ensures var e := Entered(d, env.wins, env.ticks);
            var (d', out) := SwitchIn(d, env);
            && out.Switched? && out.kind == Matching && out.id in Candidates(d, env)
            && d' == e.(visited := e.visited + [out.id]) && PassesOnce(d, env)
  {
    var e := Entered(d, env.wins, env.ticks);
    FindFirst(env.wins, (w: Node) => Candidate(w, e, FocusedId(env.wins), env.pred));
    var id :| id in Candidates(d, env);
    var w :| w in env.wins && Candidate(w, e, FocusedId(env.wins), env.pred) && w.id == id;
  }

  lemma NoCandidate(d: Data, env: Env)
    requires Candidates(d, env) == {}
    ensures NextCandidate(env.wins, Entered(d, env.wins, env.ticks), FocusedId(env.wins), env.pred) == None
  {
    var e := Entered(d, env.wins, env.ticks);
    FindFirst(env.wins, (w: Node) => Candidate(w, e, FocusedId(env.wins), env.pred));
    assert forall w :: w in env.wins && Candidate(w, e, FocusedId(env.wins), env.pred) ==> w.id in Candidates(d, env);
  }

  /** With no candidate left, the step goes to the LRU window of the sequence start. */
  lemma LruStep(d: Data, env: Env, seen: set<int>, origin: int, lru: int)
    requires Touring(Entered(d, env.wins, env.ticks), FocusedId(env.wins), seen, origin, lru) && Candidates(d, env) == {}
    requires !d.skipLru && lru !in seen && IsOpen(env.wins, lru)
    ensures var e := Entered(d, env.wins, env.ticks);
            SwitchIn(d, env) == (e.(visited := e.visited + [lru]), Outcome.Switched(Lru, lru)) && PassesOnce(d, env)
  {
    NoCandidate(d, env);
  }

  /** With the LRU window visited or skipped, the step returns to the origin and ends the sequence. */
  lemma OriginStep(d: Data, env: Env, seen: set<int>, origin: int, lru: int)
    requires Touring(Entered(d, env.wins, env.ticks), FocusedId(env.wins), seen, origin, lru) && Candidates(d, env) == {}
    requires d.skipLru || lru in seen
    requires Returns(d, origin) && IsOpen(env.wins, origin) && FocusedId(env.wins) != origin
    ensures SwitchIn(d, env) == (Reset(d), Outcome.Switched(Origin, origin)) && PassesOnce(d, env)
  {
    NoCandidate(d, env);
  }

  /** After a visit, entering the next command keeps the tour's bookkeeping. */
  lemma StillTouring(e: Data, focus: int, seen: set<int>, origin: int, lru: int, id: int, env: Env)
    requires Touring(e, focus, seen, origin, lru) && FocusedId(env.wins) == id
    ensures Touring(Entered(e.(visited := e.visited + [id]), env.wins, env.ticks), id, seen + {id}, origin, lru)
  {
    var d := e.(visited := e.visited + [id]);
    assert d.visited != [];
    assert forall x :: x in d.visited <==> x in e.visited || x == id;
    var n := Entered(d, env.wins, env.ticks);
    assert forall x :: x in n.visited <==> x in d.visited || x == id;
  }

  // ---------------------------------------------------------------------------------------
  // Whole tours

  /** The steps after the last candidate. */
  function Tail(d: Data, origin: int, lru: int): seq<Outcome> {
    (if d.skipLru then [] else [Outcome.Switched(Lru, lru)])
    + (if Returns(d, origin) then [Outcome.Switched(Origin, origin)] else [])
  }

  /** `outs` visits the windows of `todo` by urgency or match, each exactly once, and then takes the tail. */
  ghost predicate Tour(outs: seq<Outcome>, todo: set<int>, tail: seq<Outcome>) {
    && |outs| == |todo| + |tail|
    && outs[|todo|..] == tail
    && (forall i :: 0 <= i < |todo| ==> outs[i].Switched? && outs[i].kind == Matching && outs[i].id in todo)
    && (forall i, j :: 0 <= i < j < |todo| ==> outs[i].id != outs[j].id)
    && (forall id :: id in todo ==> exists i :: 0 <= i < |todo| && outs[i] == Outcome.Switched(Matching, id))
  }

  lemma TourExtends(out: Outcome, outs: seq<Outcome>, todo: set<int>, tail: seq<Outcome>)
    requires out.Switched? && out.kind == Matching && out.id in todo && Tour(outs, todo - {out.id}, tail)
    ensures Tour([out] + outs, todo, tail)
  {
    var all := [out] + outs;
    assert |todo - {out.id}| == |todo| - 1;
    assert forall i :: 0 < i < |todo| ==> all[i] == outs[i - 1];
    assert all[|todo|..] == outs[|todo| - 1..];
    forall id | id in todo
      ensures exists i :: 0 <= i < |todo| && all[i] == Outcome.Switched(Matching, id)
    {
      if id == out.id {
        assert all[0] == Outcome.Switched(Matching, id);
      } else {
        var i :| 0 <= i < |todo - {out.id}| && outs[i] == Outcome.Switched(Matching, id);
        assert all[i + 1] == Outcome.Switched(Matching, id);
      }
    }
  }

  /** The first command of `envs`, if any, finds the engine on tour. */
  ghost predicate OnTour(d: Data, focus: int, seen: set<int>, origin: int, lru: int, envs: seq<Env>) {
    && (!d.skipLru ==> lru !in seen)
    && (envs != [] ==> Touring(Entered(d, envs[0].wins, envs[0].ticks), focus, seen, origin, lru))
  }

  /** The return to the origin as the only step left. */
  lemma OriginRuns(d: Data, focus: int, elig: set<int>, seen: set<int>, origin: int, lru: int, envs: seq<Env>)
    requires |envs| == 1 && Returns(d, origin) && focus != origin && (d.skipLru || lru in seen)
    requires Touring(Entered(d, envs[0].wins, envs[0].ticks), focus, seen, origin, lru)
    requires Undisturbed(d, focus, elig, seen, origin, lru, envs) && elig - seen - Reserved(d, lru) == {}
    ensures Outcomes(d, envs) == [Outcome.Switched(Origin, origin)] && FinalData(d, envs) == Reset(d)
  {
    CandidatesAreUnseen(d, envs[0], elig, seen, origin, lru);
    OriginStep(d, envs[0], seen, origin, lru);
    assert Outcomes(d, envs) == [Outcome.Switched(Origin, origin)] + Outcomes(Reset(d), []);
    assert FinalData(d, envs) == FinalData(Reset(d), []);
  }

  /** The closing steps, once every candidate was visited. */
  lemma TailRuns(d: Data, focus: int, elig: set<int>, seen: set<int>, origin: int, lru: int, envs: seq<Env>)
    requires OnTour(d, focus, seen, origin, lru, envs) && |envs| == |Tail(d, origin, lru)|
    requires Undisturbed(d, focus, elig, seen, origin, lru, envs) && elig - seen - Reserved(d, lru) == {}
    requires d.skipLru ==> focus != origin
    ensures Outcomes(d, envs) == Tail(d, origin, lru)
    ensures Returns(d, origin) ==> FinalData(d, envs) == Reset(d)
  {
    if d.skipLru {
      if Returns(d, origin) {
        OriginRuns(d, focus, elig, seen, origin, lru, envs);
      }
    } else {
      var e := Entered(d, envs[0].wins, envs[0].ticks);
      CandidatesAreUnseen(d, envs[0], elig, seen, origin, lru);
      LruStep(d, envs[0], seen, origin, lru);
      var d' := SwitchIn(d, envs[0]).0;
      if Returns(d, origin) {
        StillTouring(e, focus, seen, origin, lru, lru, envs[1]);
        OriginRuns(d', lru, elig, seen + {lru}, origin, lru, envs[1..]);
      }
    }
  }

  /** One visit of a tour: to an unseen candidate, which is seen from then on. */
  lemma TourStep(d: Data, focus: int, elig: set<int>, seen: set<int>, origin: int, lru: int, envs: seq<Env>)
    requires envs != [] && OnTour(d, focus, seen, origin, lru, envs) && Undisturbed(d, focus, elig, seen, origin, lru, envs)
    requires elig - seen - Reserved(d, lru) != {}
    ensures var (d', out) := SwitchIn(d, envs[0]);
            && out.Switched? && out.kind == Matching && out.id in elig - seen - Reserved(d, lru)
            && OnTour(d', out.id, seen + {out.id}, origin, lru, envs[1..])
            && SameFlags(d, d') && PassesOnce(d, envs[0])
  {
    var e := Entered(d, envs[0].wins, envs[0].ticks);
    CandidatesAreUnseen(d, envs[0], elig, seen, origin, lru);
    CandidateStep(d, envs[0]);
    var out := SwitchIn(d, envs[0]).1;
    if |envs| > 1 {
      StillTouring(e, focus, seen, origin, lru, out.id, envs[1]);
    }
  }

  predicate SameFlags(d: Data, d': Data) {
    d'.skipUrgent == d.skipUrgent && d'.skipLru == d.skipLru && d'.skipOrigin == d.skipOrigin
  }

  lemma SeenNoLongerOpen(elig: set<int>, seen: set<int>, reserved: set<int>, id: int)
    requires id in elig - seen - reserved
    ensures elig - (seen + {id}) - reserved == (elig - seen - reserved) - {id}
    ensures |elig - (seen + {id}) - reserved| == |elig - seen - reserved| - 1
  {
    assert elig - (seen + {id}) - reserved == (elig - seen - reserved) - {id};
  }

  /** From any point of a sequence the remaining candidates are visited once each, and then the tail is taken. */
  lemma {:induction false} TourFrom(d: Data, focus: int, elig: set<int>, seen: set<int>, origin: int,
      lru: int, envs: seq<Env>)
    requires OnTour(d, focus, seen, origin, lru, envs) && Undisturbed(d, focus, elig, seen, origin, lru, envs)
    requires |envs| == |elig - seen - Reserved(d, lru)| + |Tail(d, origin, lru)|
    requires d.skipLru && elig - seen == {} ==> focus != origin
    ensures Tour(Outcomes(d, envs), elig - seen - Reserved(d, lru), Tail(d, origin, lru))
    ensures Returns(d, origin) ==> FinalData(d, envs) == Reset(d)
    decreases |envs|
  {
    var todo := elig - seen - Reserved(d, lru);
    if todo == {} {
      assert d.skipLru ==> elig - seen == todo;
      TailRuns(d, focus, elig, seen, origin, lru, envs);
    } else {
      var (d', out) := SwitchIn(d, envs[0]);
      TourStep(d, focus, elig, seen, origin, lru, envs);
      SeenNoLongerOpen(elig, seen, Reserved(d, lru), out.id);
      TourFrom(d', out.id, elig, seen + {out.id}, origin, lru, envs[1..]);
      TourExtends(out, Outcomes(d', envs[1..]), todo, Tail(d, origin, lru));
    }
  }

  /** A fresh start with an unfocused window open, in a world that then stays undisturbed. */
  ghost predicate FreshTour(d: Data, envs: seq<Env>, origin: int, lru: int, todo: set<int>) {
    && d == Reset(d) && envs != []
    && FocusedId(envs[0].wins) == origin && LruWindow(envs[0].wins, envs[0].ticks) == Some(lru)
    && Undisturbed(d, origin, Eligible(envs[0], d.skipUrgent), {origin}, origin, lru, envs)
    && todo == Eligible(envs[0], d.skipUrgent) - {origin} - Reserved(d, lru)
    && (d.skipLru ==> todo != {})
    && |envs| == |todo| + (if d.skipLru then 0 else 1) + (if Returns(d, origin) then 1 else 0)
  }

  lemma FreshEntry(d: Data, env: Env, origin: int, lru: int)
    requires d == Reset(d) && WellFormed(env.wins)
    requires FocusedId(env.wins) == origin && LruWindow(env.wins, env.ticks) == Some(lru)
    ensures Touring(Entered(d, env.wins, env.ticks), origin, {origin}, origin, lru)
  {
    FocusedIdMeaning(env.wins);
    LruMeaning(env.wins, env.ticks);
    assert Entered(d, env.wins, env.ticks).visited == [origin];
  }

  lemma FreshIsOnTour(d: Data, envs: seq<Env>, origin: int, lru: int, todo: set<int>)
    requires FreshTour(d, envs, origin, lru, todo)
    ensures OnTour(d, origin, {origin}, origin, lru, envs)
  {
    FreshEntry(d, envs[0], origin, lru);
    FocusedIdMeaning(envs[0].wins);
    LruMeaning(envs[0].wins, envs[0].ticks);
  }

  /**
   An undisturbed series of the same switch command visits each urgent or matching window other
   than the origin and the reserved LRU window exactly once, then the last recently used window,
   then the origin, and is then reset.
   */
  lemma SwitchTour(d: Data, envs: seq<Env>, origin: int, lru: int, todo: set<int>)
    requires FreshTour(d, envs, origin, lru, todo)
    ensures Tour(Outcomes(d, envs), todo, Tail(d, origin, lru))
    ensures Returns(d, origin) ==> FinalData(d, envs) == d
  {
    FreshIsOnTour(d, envs, origin, lru, todo);
    TourFrom(d, origin, Eligible(envs[0], d.skipUrgent), {origin}, origin, lru, envs);
  }

  /** A fresh sequence with the LRU step skipped and nothing to visit focuses nothing and stays fresh. */
  lemma NothingToVisit(d: Data, env: Env, origin: int)
    requires d == Reset(d) && d.skipLru && WellFormed(env.wins) && FocusedId(env.wins) == origin
    requires Eligible(env, d.skipUrgent) - {origin} == {}
    ensures SwitchIn(d, env) == (d, Exhausted)
  {
    var e := Entered(d, env.wins, env.ticks);
    FocusedIdMeaning(env.wins);
    assert e.visited == [origin];
    forall w | w in env.wins
      ensures !Candidate(w, e, origin, env.pred)
    {
      assert w.id != origin ==> w.id !in Eligible(env, d.skipUrgent) by {
        assert w.id !in Eligible(env, d.skipUrgent) - {origin};
      }
    }
    NoCandidate(d, env);
  }

  /** The first command goes to the LRU window exactly when no other window is urgent or matches. */
  lemma LruWindowWaits(d: Data, env: Env)
    requires d == Reset(d) && !d.skipLru && WellFormed(env.wins) && exists w :: w in env.wins && !w.focused
    ensures var lru := LruWindow(env.wins, env.ticks);
            lru.Some? && (FocusedBy(SwitchIn(d, env).1) == lru <==> Candidates(d, env) == {})
  {
    var e := Entered(d, env.wins, env.ticks);
    FocusedIdMeaning(env.wins);
    LruMeaning(env.wins, env.ticks);
    if Candidates(d, env) == {} {
      NoCandidate(d, env);
      assert CanVisitLru(env.wins, e, FocusedId(env.wins));
    } else {
      CandidateStep(d, env);
      assert e.lru.value !in Candidates(d, env);
    }
  }

  function SampleWindow(id: int, focused: bool, urgent: bool): Node {
    Node(id, Con, Some("w"), None, Some(1), None, None, NoLayout, focused, urgent, [], [], [])
  }

  const URGENT_LRU := SampleWindow(1, false, true)
  const MATCHING := SampleWindow(2, false, false)
  const CURRENT := SampleWindow(3, true, false)
  const SAMPLE := [URGENT_LRU, MATCHING, CURRENT]
  const SAMPLE_TICKS: Ticks := map[1 := 8, 2 := 5, 3 := 9]

  lemma SampleFacts()
    ensures WellFormed(SAMPLE) && CURRENT in SAMPLE && URGENT_LRU in SAMPLE
    ensures forall w :: w in SAMPLE && !w.focused ==> LastFocusTick(SAMPLE_TICKS, w.id) <= 8 && (w.id == 1 || w.id == 2)
  {
    assert SAMPLE[2] == CURRENT && SAMPLE[0] == URGENT_LRU;
  }

  lemma SampleStart()
    ensures FocusedId(SAMPLE) == 3 && LruWindow(SAMPLE, SAMPLE_TICKS) == Some(1)
  {
    SampleFacts();
    FocusedIdMeaning(SAMPLE);
    LruMeaning(SAMPLE, SAMPLE_TICKS);
  }

  /** The documentation has an urgent LRU window visited first; here a merely matching window goes before it. */
  lemma UrgentLruCounterexample()
    ensures SwitchIn(Data([], None, None, false, false, false), Env(SAMPLE, SAMPLE_TICKS, (w: Node) => w.id == 2)).1
            == Outcome.Switched(Matching, 2)
  {
    var d := Data([], None, None, false, false, false);
    var pred := (w: Node) => w.id == 2;
    SampleStart();
    var e := Entered(d, SAMPLE, SAMPLE_TICKS);
    assert Candidate(MATCHING, e, 3, pred) && MATCHING in SAMPLE;
    FindFirst(SAMPLE, (w: Node) => Candidate(w, e, 3, pred));
  }

  // ---------------------------------------------------------------------------------------
  // Urgent windows come first

  /** With the list in switch order, a step goes to the most recent urgent candidate while there is one. */
  lemma UrgentFirst(d: Data, env: Env, k: nat, u: Node)
    requires k <= |env.wins| && SwitchOrder(env.wins, k, env.ticks)
    requires u in env.wins && u.urgent && Candidate(u, Entered(d, env.wins, env.ticks), FocusedId(env.wins), env.pred)
    ensures var out := SwitchIn(d, env).1;
            && out.Switched? && out.kind == Matching
            && exists w :: w in env.wins && w.id == out.id && w.urgent
                           && LastFocusTick(env.ticks, w.id) >= LastFocusTick(env.ticks, u.id)
  {
    var e := Entered(d, env.wins, env.ticks);
    var p := (w: Node) => Candidate(w, e, FocusedId(env.wins), env.pred);
    FindFirst(env.wins, p);
    var w := Find(env.wins, p).value;
    var i :| 0 <= i < |env.wins| && env.wins[i] == w && forall j :: 0 <= j < i ==> !p(env.wins[j]);
    var j :| 0 <= j < |env.wins| && env.wins[j] == u;
    assert p(env.wins[j]) && i <= j < k;
  }

  /** On the windows of a tree: while an urgent candidate remains, the most recent one is next. */
  lemma UrgentFirstOnTree(d: Data, root: Node, ticks: Ticks, pred: Node -> bool, u: Node)
    requires SwayTree(root)
    requires var wins := Windows(root, ticks);
             u in wins && u.urgent && Candidate(u, Entered(d, wins, ticks), FocusedId(wins), pred)
    ensures var out := Switch(d, Windows(root, ticks), ticks, pred).1;
            && out.Switched? && out.kind == Matching
            && exists w :: w in Subtree(root) && w.id == out.id && w.urgent && !w.focused
                           && LastFocusTick(ticks, w.id) >= LastFocusTick(ticks, u.id)
  {
    var wins := Windows(root, ticks);
    WindowsInSwitchOrder(root, ticks);
    var k :| 0 <= k <= |wins| && SwitchOrder(wins, k, ticks);
    UrgentFirst(d, Env(wins, ticks, pred), k, u);
    WindowsWellFormed(root, ticks);
    SwitchTargetsUnfocusedWindow(d, wins, ticks, pred);
    var out := Switch(d, wins, ticks, pred).1;
    var w :| w in wins && w.id == out.id && w.urgent && LastFocusTick(ticks, w.id) >= LastFocusTick(ticks, u.id);
    var v :| v in wins && v.id == out.id && !v.focused;
    SameId(wins, v, w);
    SamePermutationSameMembers(wins, NodesOfType(root, Window));
    NodesOfTypeMembers(root, Window);
  }

  // ---------------------------------------------------------------------------------------
  // The documented order of a whole sequence

  /** The windows with urgency hints, as far as urgency counts. */
  function Hinted(env: Env, skipUrgent: bool): set<int> {
    set w | w in env.wins && w.urgent && !skipUrgent :: w.id
  }

  /** Each command finds its windows in switch order, and a window is urgent as at the start until it has had the focus. */
  ghost predicate UrgencyKept(d: Data, urgent: set<int>, seen: set<int>, envs: seq<Env>)
    decreases |envs|
  {
    envs != [] ==>
      && (exists k :: 0 <= k <= |envs[0].wins| && SwitchOrder(envs[0].wins, k, envs[0].ticks))
      && AgreeUnseen(Hinted(envs[0], d.skipUrgent), urgent, seen)
      && (SwitchIn(d, envs[0]).1.Switched? ==>
            var (d', out) := SwitchIn(d, envs[0]);
            UrgencyKept(d', urgent, seen + {out.id}, envs[1..]))
  }

  /** The documented step of a visit: urgent, matching, last recently used, origin. */
  function Step(out: Outcome, urgent: set<int>, elig: set<int>): nat {
    if out.Exhausted? || out.kind.Origin? then 4
    else if out.id in urgent then 1
    else if out.id in elig then 2
    else 3
  }

  ghost predicate DocumentedOrder(outs: seq<Outcome>, urgent: set<int>, elig: set<int>) {
    forall i, j :: 0 <= i < j < |outs| ==> Step(outs[i], urgent, elig) <= Step(outs[j], urgent, elig)
  }

  /** Within the first `n` visits no urgent window comes after another one. */
  ghost predicate UrgentPrefix(outs: seq<Outcome>, n: nat, urgent: set<int>) {
    && n <= |outs| && (forall i :: 0 <= i < n ==> outs[i].Switched?)
    && forall i, j :: 0 <= i < j < n && outs[j].id in urgent ==> outs[i].id in urgent
  }

  /** While an unseen candidate is urgent, so is the window visited next. */
  lemma UrgentStep(d: Data, env: Env, elig: set<int>, seen: set<int>, origin: int, lru: int, urgent: set<int>, u: int)
    requires Touring(Entered(d, env.wins, env.ticks), FocusedId(env.wins), seen, origin, lru)
    requires AgreeUnseen(Eligible(env, d.skipUrgent), elig, seen) && AgreeUnseen(Hinted(env, d.skipUrgent), urgent, seen)
    requires exists k :: 0 <= k <= |env.wins| && SwitchOrder(env.wins, k, env.ticks)
    requires u in elig - seen - Reserved(d, lru) && u in urgent
    ensures SwitchIn(d, env).1.Switched? && SwitchIn(d, env).1.id in urgent
  {
    var e := Entered(d, env.wins, env.ticks);
    var k :| 0 <= k <= |env.wins| && SwitchOrder(env.wins, k, env.ticks);
    assert u in urgent - seen;
    var w :| w in env.wins && w.urgent && !d.skipUrgent && w.id == u;
    assert Candidate(w, e, FocusedId(env.wins), env.pred);
    UrgentFirst(d, env, k, w);
    CandidatesAreUnseen(d, env, elig, seen, origin, lru);
    assert w.id in Candidates(d, env);
    CandidateStep(d, env);
    var out := SwitchIn(d, env).1;
    assert out.id in Hinted(env, d.skipUrgent) - seen;
  }

  lemma PrefixExtends(out: Outcome, outs: seq<Outcome>, todo: set<int>, tail: seq<Outcome>, urgent: set<int>)
    requires out.Switched? && out.id in todo && Tour(outs, todo - {out.id}, tail)
    requires UrgentPrefix(outs, |todo - {out.id}|, urgent)
    requires forall u :: u in todo && u in urgent ==> out.id in urgent
    ensures UrgentPrefix([out] + outs, |todo|, urgent)
  {
    var all := [out] + outs;
    assert |todo - {out.id}| == |todo| - 1;
    assert forall i :: 0 < i < |all| ==> all[i] == outs[i - 1];
  }

  lemma UrgentNext(d: Data, focus: int, elig: set<int>, seen: set<int>, origin: int,
      lru: int, envs: seq<Env>, urgent: set<int>)
    requires envs != [] && OnTour(d, focus, seen, origin, lru, envs) && Undisturbed(d, focus, elig, seen, origin, lru, envs)
    requires UrgencyKept(d, urgent, seen, envs)
    ensures forall u :: u in elig - seen - Reserved(d, lru) && u in urgent ==>
                          SwitchIn(d, envs[0]).1.Switched? && SwitchIn(d, envs[0]).1.id in urgent
  {
    forall u | u in elig - seen - Reserved(d, lru) && u in urgent
      ensures SwitchIn(d, envs[0]).1.Switched? && SwitchIn(d, envs[0]).1.id in urgent
    {
      UrgentStep(d, envs[0], elig, seen, origin, lru, urgent, u);
    }
  }

  lemma {:induction false} UrgentVisitedFirst(d: Data, focus: int, elig: set<int>, seen: set<int>, origin: int,
      lru: int, envs: seq<Env>, urgent: set<int>)
    requires OnTour(d, focus, seen, origin, lru, envs) && Undisturbed(d, focus, elig, seen, origin, lru, envs)
    requires UrgencyKept(d, urgent, seen, envs)
    requires |envs| == |elig - seen - Reserved(d, lru)| + |Tail(d, origin, lru)|
    requires d.skipLru && elig - seen == {} ==> focus != origin
    ensures UrgentPrefix(Outcomes(d, envs), |elig - seen - Reserved(d, lru)|, urgent)
    decreases |envs|
  {
    var todo := elig - seen - Reserved(d, lru);
    if todo != {} {
      var (d', out) := SwitchIn(d, envs[0]);
      TourStep(d, focus, elig, seen, origin, lru, envs);
      UrgentNext(d, focus, elig, seen, origin, lru, envs, urgent);
      SeenNoLongerOpen(elig, seen, Reserved(d, lru), out.id);
      UrgentVisitedFirst(d', out.id, elig, seen + {out.id}, origin, lru, envs[1..], urgent);
      TourFrom(d', out.id, elig, seen + {out.id}, origin, lru, envs[1..]);
      PrefixExtends(out, Outcomes(d', envs[1..]), todo, Tail(d, origin, lru), urgent);
    }
  }

  /** One of the first `n` visits goes to a window that is not urgent. */
  ghost predicate OtherAmongFirst(outs: seq<Outcome>, n: nat, urgent: set<int>) {
    exists i :: 0 <= i < n && i < |outs| && outs[i].Switched? && outs[i].id !in urgent
  }

  predicate AllUrgent(ids: set<int>, urgent: set<int>) {
    forall id :: id in ids ==> id in urgent
  }

  lemma OtherIffCandidate(outs: seq<Outcome>, todo: set<int>, tail: seq<Outcome>, urgent: set<int>)
    requires Tour(outs, todo, tail)
    ensures OtherAmongFirst(outs, |todo|, urgent) <==> !AllUrgent(todo, urgent)
  {
    if !AllUrgent(todo, urgent) {
      var id :| id in todo && id !in urgent;
      var i :| 0 <= i < |todo| && outs[i] == Outcome.Switched(Matching, id);
    }
  }

  lemma OrderOfTour(outs: seq<Outcome>, d: Data, origin: int, lru: int, todo: set<int>, urgent: set<int>, elig: set<int>)
    requires Tour(outs, todo, Tail(d, origin, lru)) && UrgentPrefix(outs, |todo|, urgent) && todo <= elig
    ensures DocumentedOrder(outs, urgent, elig) <==> d.skipLru || lru !in urgent || AllUrgent(todo, urgent)
  {
    var n := |todo|;
    if !d.skipLru {
      assert outs[n] == outs[n..][0] == Outcome.Switched(Lru, lru);
    }
    if d.skipLru || lru !in urgent || AllUrgent(todo, urgent) {
      forall i, j | 0 <= i < j < |outs|
        ensures Step(outs[i], urgent, elig) <= Step(outs[j], urgent, elig)
      {
        if n <= j {
          assert outs[j] == outs[n..][j - n];
        }
      }
    } else {
      var id :| id in todo && id !in urgent;
      var i :| 0 <= i < n && outs[i] == Outcome.Switched(Matching, id);
      assert Step(outs[i], urgent, elig) > Step(outs[n], urgent, elig);
    }
  }

  /**
   The exact condition of the documented order: an undisturbed sequence takes the urgent windows,
   then the matching ones, then the last recently used one and then the origin, unless the last
   recently used window is itself urgent and some other candidate is not.
   */
  lemma DocumentedOrderExactly(d: Data, envs: seq<Env>, origin: int, lru: int, todo: set<int>)
    requires FreshTour(d, envs, origin, lru, todo)
    requires UrgencyKept(d, Hinted(envs[0], d.skipUrgent), {origin}, envs)
    ensures var urgent := Hinted(envs[0], d.skipUrgent);
            && (DocumentedOrder(Outcomes(d, envs), urgent, Eligible(envs[0], d.skipUrgent))
                <==> d.skipLru || lru !in urgent || AllUrgent(todo, urgent))
            && (OtherAmongFirst(Outcomes(d, envs), |todo|, urgent) <==> !AllUrgent(todo, urgent))
  {
    var urgent, elig := Hinted(envs[0], d.skipUrgent), Eligible(envs[0], d.skipUrgent);
    var outs := Outcomes(d, envs);
    FreshIsOnTour(d, envs, origin, lru, todo);
    SwitchTour(d, envs, origin, lru, todo);
    UrgentVisitedFirst(d, origin, elig, {origin}, origin, lru, envs, urgent);
    OrderOfTour(outs, d, origin, lru, todo, urgent, elig);
    OtherIffCandidate(outs, todo, Tail(d, origin, lru), urgent);
  }

  // ---------------------------------------------------------------------------------------
  // The order of visits

  /** One window is listed before another. */
  ghost predicate Precedes(wins: seq<Node>, a: int, b: int) {
    exists i, j :: 0 <= i < j < |wins| && wins[i].id == a && wins[j].id == b
  }

  /** The step goes to the candidate that no other candidate precedes in the list. */
  lemma FirstCandidateNext(d: Data, env: Env, id: int)
    requires id in Candidates(d, env)
    ensures var out := SwitchIn(d, env).1;
            out.Switched? && out.kind == Matching && (out.id == id || Precedes(env.wins, out.id, id))
  {
    var e := Entered(d, env.wins, env.ticks);
    var p := (w: Node) => Candidate(w, e, FocusedId(env.wins), env.pred);
    var w :| w in env.wins && Candidate(w, e, FocusedId(env.wins), env.pred) && w.id == id;
    FindFirst(env.wins, p);
    var first := Find(env.wins, p).value;
    var i :| 0 <= i < |env.wins| && env.wins[i] == first && forall j :: 0 <= j < i ==> !p(env.wins[j]);
    var j :| 0 <= j < |env.wins| && env.wins[j] == w;
    assert p(env.wins[j]) && i <= j;
  }

  /** The last window of the list, a most recent one of those that are not urgent. */
  ghost predicate KeptForLast(env: Env, v: Node) {
    && env.wins != [] && v == env.wins[|env.wins| - 1]
    && forall x :: x in env.wins && !x.urgent ==> LastFocusTick(env.ticks, x.id) <= LastFocusTick(env.ticks, v.id)
  }

  /** Urgent windows go first; among equals those of greater tick, but for the window kept for last. */
  ghost predicate Outranks(env: Env, u: Node, v: Node) {
    if u.urgent == v.urgent
    then LastFocusTick(env.ticks, u.id) >= LastFocusTick(env.ticks, v.id) || (!v.urgent && KeptForLast(env, v))
    else u.urgent
  }

  ghost predicate RankedBefore(env: Env, a: int, b: int) {
    exists u, v :: u in env.wins && v in env.wins && u.id == a && v.id == b && Outranks(env, u, v)
  }

  lemma LastIsKept(env: Env, k: nat)
    requires k < |env.wins| && SwitchOrder(env.wins, k, env.ticks)
    ensures KeptForLast(env, env.wins[|env.wins| - 1])
  {
    forall x | x in env.wins && !x.urgent
      ensures LastFocusTick(env.ticks, x.id) <= LastFocusTick(env.ticks, env.wins[|env.wins| - 1].id)
    {
      var m :| 0 <= m < |env.wins| && env.wins[m] == x;
    }
  }

  lemma EarlierOutranks(env: Env, k: nat, i: nat, j: nat)
    requires i < j < |env.wins| && k <= |env.wins| && SwitchOrder(env.wins, k, env.ticks)
    ensures Outranks(env, env.wins[i], env.wins[j])
  {
    if j == |env.wins| - 1 && k <= j {
      LastIsKept(env, k);
    }
  }

  lemma PrecedesByRank(env: Env, k: nat, a: int, b: int)
    requires k <= |env.wins| && SwitchOrder(env.wins, k, env.ticks) && Precedes(env.wins, a, b)
    ensures RankedBefore(env, a, b)
  {
    var i, j :| 0 <= i < j < |env.wins| && env.wins[i].id == a && env.wins[j].id == b;
    EarlierOutranks(env, k, i, j);
    assert env.wins[i] in env.wins && env.wins[j] in env.wins;
  }

  /** On the windows of a tree, the step goes to a candidate that ranks before every other one. */
  lemma NextOnTree(d: Data, root: Node, ticks: Ticks, pred: Node -> bool, id: int)
    requires id in Candidates(d, Env(Windows(root, ticks), ticks, pred))
    ensures var env := Env(Windows(root, ticks), ticks, pred);
            var out := SwitchIn(d, env).1;
            out.Switched? && out.kind == Matching && (out.id == id || RankedBefore(env, out.id, id))
  {
    var env := Env(Windows(root, ticks), ticks, pred);
    FirstCandidateNext(d, env, id);
    WindowsInSwitchOrder(root, ticks);
    var k :| 0 <= k <= |env.wins| && SwitchOrder(env.wins, k, env.ticks);
    if SwitchIn(d, env).1.id != id {
      PrecedesByRank(env, k, SwitchIn(d, env).1.id, id);
    }
  }

  /** Among the first `n` visits, each goes to a window listed before those that are visited later. */
  ghost predicate InListOrder(outs: seq<Outcome>, envs: seq<Env>, n: nat) {
    && n <= |outs| && n <= |envs| && (forall i :: 0 <= i < n ==> outs[i].Switched?)
    && forall i, j :: 0 <= i < j < n ==> Precedes(envs[i].wins, outs[i].id, outs[j].id)
  }

  lemma ListOrderExtends(out: Outcome, outs: seq<Outcome>, envs: seq<Env>, todo: set<int>, tail: seq<Outcome>)
    requires envs != [] && out.Switched? && out.id in todo && Tour(outs, todo - {out.id}, tail)
    requires InListOrder(outs, envs[1..], |todo - {out.id}|)
    requires forall id :: id in todo ==> out.id == id || Precedes(envs[0].wins, out.id, id)
    ensures InListOrder([out] + outs, envs, |todo|)
  {
    var all := [out] + outs;
    assert |todo - {out.id}| == |todo| - 1;
    assert forall i :: 0 < i < |all| ==> all[i] == outs[i - 1];
    assert forall i :: 0 < i < |envs| ==> envs[i] == envs[1..][i - 1];
    forall i, j | 0 <= i < j < |todo|
      ensures Precedes(envs[i].wins, all[i].id, all[j].id)
    {
      assert all[j] == outs[j - 1] && outs[j - 1].id in todo - {out.id};
      if i > 0 {
        assert Precedes(envs[1..][i - 1].wins, outs[i - 1].id, outs[j - 1].id);
      }
    }
  }

  lemma NextInList(d: Data, focus: int, elig: set<int>, seen: set<int>, origin: int, lru: int, envs: seq<Env>)
    requires envs != [] && OnTour(d, focus, seen, origin, lru, envs) && Undisturbed(d, focus, elig, seen, origin, lru, envs)
    ensures forall id :: id in elig - seen - Reserved(d, lru) ==>
              var out := SwitchIn(d, envs[0]).1;
              out.Switched? && (out.id == id || Precedes(envs[0].wins, out.id, id))
  {
    CandidatesAreUnseen(d, envs[0], elig, seen, origin, lru);
    forall id | id in elig - seen - Reserved(d, lru)
      ensures var out := SwitchIn(d, envs[0]).1;
              out.Switched? && (out.id == id || Precedes(envs[0].wins, out.id, id))
    {
      FirstCandidateNext(d, envs[0], id);
    }
  }

  lemma {:induction false} ListOrderFrom(d: Data, focus: int, elig: set<int>, seen: set<int>, origin: int,
      lru: int, envs: seq<Env>)
    requires OnTour(d, focus, seen, origin, lru, envs) && Undisturbed(d, focus, elig, seen, origin, lru, envs)
    requires |envs| == |elig - seen - Reserved(d, lru)| + |Tail(d, origin, lru)|
    requires d.skipLru && elig - seen == {} ==> focus != origin
    ensures InListOrder(Outcomes(d, envs), envs, |elig - seen - Reserved(d, lru)|)
    decreases |envs|
  {
    var todo := elig - seen - Reserved(d, lru);
    if todo != {} {
      var (d', out) := SwitchIn(d, envs[0]);
      TourStep(d, focus, elig, seen, origin, lru, envs);
      NextInList(d, focus, elig, seen, origin, lru, envs);
      SeenNoLongerOpen(elig, seen, Reserved(d, lru), out.id);
      ListOrderFrom(d', out.id, elig, seen + {out.id}, origin, lru, envs[1..]);
      TourFrom(d', out.id, elig, seen + {out.id}, origin, lru, envs[1..]);
      ListOrderExtends(out, Outcomes(d', envs[1..]), envs, todo, Tail(d, origin, lru));
    }
  }

  /** Which window of a tour comes when: always the first one in the list of those that are still to be visited. */
  lemma TourInListOrder(d: Data, envs: seq<Env>, origin: int, lru: int, todo: set<int>)
    requires FreshTour(d, envs, origin, lru, todo)
    ensures InListOrder(Outcomes(d, envs), envs, |todo|)
  {
    FreshIsOnTour(d, envs, origin, lru, todo);
    ListOrderFrom(d, origin, Eligible(envs[0], d.skipUrgent), {origin}, origin, lru, envs);
  }

  /** A tour over lists in switch order always takes a window that ranks before those still to be visited. */
  lemma TourByRank(d: Data, envs: seq<Env>, origin: int, lru: int, todo: set<int>, i: nat, j: nat)
    requires FreshTour(d, envs, origin, lru, todo) && i < j < |todo|
    requires exists k :: 0 <= k <= |envs[i].wins| && SwitchOrder(envs[i].wins, k, envs[i].ticks)
    ensures var outs := Outcomes(d, envs);
            j < |outs| && outs[i].Switched? && outs[j].Switched? && RankedBefore(envs[i], outs[i].id, outs[j].id)
  {
    TourInListOrder(d, envs, origin, lru, todo);
    var outs := Outcomes(d, envs);
    var k :| 0 <= k <= |envs[i].wins| && SwitchOrder(envs[i].wins, k, envs[i].ticks);
    assert Precedes(envs[i].wins, outs[i].id, outs[j].id);
    PrecedesByRank(envs[i], k, outs[i].id, outs[j].id);
  }

  // ---------------------------------------------------------------------------------------
  // A whole sequence that breaks the documented order

  /** The sample windows with the focus on one of them. */
  function SampleEnv(focus: int): Env {
    Env([SampleWindow(1, focus == 1, true), SampleWindow(2, focus == 2, false), SampleWindow(3, focus == 3, false)],
        SAMPLE_TICKS, (w: Node) => w.id == 2)
  }

  lemma SampleFocus(focus: int)
    requires 1 <= focus <= 3
    ensures var wins := SampleEnv(focus).wins;
            WellFormed(wins) && FocusedId(wins) == focus && IsOpen(wins, 1) && IsOpen(wins, 3)
  {
    var wins := SampleEnv(focus).wins;
    FocusedIdMeaning(wins);
    assert wins[0] in wins && wins[1] in wins && wins[2] in wins;
    assert wins[focus - 1].focused;
  }

  lemma SampleOrder(focus: int)
    ensures SwitchOrder(SampleEnv(focus).wins, 1, SAMPLE_TICKS)
  {}

  lemma SampleWindows(focus: int)
    ensures Eligible(SampleEnv(focus), false) == {1, 2} && Hinted(SampleEnv(focus), false) == {1}
  {
    var wins := SampleEnv(focus).wins;
    assert wins[0] in wins && wins[1] in wins && wins[2] in wins;
  }

  /** With one candidate, the first command goes there. */
  lemma OnlyCandidateStep(d: Data, env: Env, next: Env, elig: set<int>, origin: int, lru: int, id: int) returns (d': Data)
    requires Touring(Entered(d, env.wins, env.ticks), FocusedId(env.wins), {origin}, origin, lru)
    requires Eligible(env, d.skipUrgent) == elig && elig - {origin} - Reserved(d, lru) == {id}
    requires FocusedId(next.wins) == id
    ensures SwitchIn(d, env) == (d', Outcome.Switched(Matching, id)) && SameFlags(d, d')
    ensures Touring(Entered(d', next.wins, next.ticks), id, {origin} + {id}, origin, lru)
  {
    CandidatesAreUnseen(d, env, elig, {origin}, origin, lru);
    CandidateStep(d, env);
    d' := SwitchIn(d, env).0;
    StillTouring(Entered(d, env.wins, env.ticks), FocusedId(env.wins), {origin}, origin, lru, id, next);
  }

  /** With every candidate seen, the LRU window is next. */
  lemma LruStepFollows(d: Data, env: Env, elig: set<int>, seen: set<int>, origin: int, lru: int) returns (d': Data)
    requires Touring(Entered(d, env.wins, env.ticks), FocusedId(env.wins), seen, origin, lru)
    requires Eligible(env, d.skipUrgent) == elig && elig - seen - Reserved(d, lru) == {}
    requires !d.skipLru && lru !in seen && IsOpen(env.wins, lru)
    ensures SwitchIn(d, env) == (d', Outcome.Switched(Lru, lru)) && SameFlags(d, d')
  {
    CandidatesAreUnseen(d, env, elig, seen, origin, lru);
    LruStep(d, env, seen, origin, lru);
    d' := SwitchIn(d, env).0;
  }

  /** What a command of an undisturbed sequence finds. */
  ghost predicate Finds(env: Env, focus: int, elig: set<int>, urgent: set<int>, seen: set<int>, origin: int, lru: int) {
    && WellFormed(env.wins) && FocusedId(env.wins) == focus && IsOpen(env.wins, origin) && IsOpen(env.wins, lru)
    && AgreeUnseen(Eligible(env, false), elig, seen) && AgreeUnseen(Hinted(env, false), urgent, seen)
    && exists k :: 0 <= k <= |env.wins| && SwitchOrder(env.wins, k, env.ticks)
  }

  /** Both conditions on a sequence, for sequences that heed urgency. */
  ghost predicate Steady(d: Data, focus: int, elig: set<int>, urgent: set<int>, seen: set<int>,
      origin: int, lru: int, envs: seq<Env>)
  {
    !d.skipUrgent && Undisturbed(d, focus, elig, seen, origin, lru, envs) && UrgencyKept(d, urgent, seen, envs)
  }

  /** One more command in front. */
  lemma SteadyExtends(d: Data, env: Env, envs: seq<Env>, focus: int, elig: set<int>, urgent: set<int>, seen: set<int>,
      origin: int, lru: int, d': Data, out: Outcome)
    requires !d.skipUrgent && Finds(env, focus, elig, urgent, seen, origin, lru)
    requires SwitchIn(d, env) == (d', out) && out.Switched?
    requires Steady(d', out.id, elig, urgent, seen + {out.id}, origin, lru, envs)
    ensures Steady(d, focus, elig, urgent, seen, origin, lru, [env] + envs)
  {
    assert ([env] + envs)[0] == env && ([env] + envs)[1..] == envs;
  }

  /** Whatever the closing command does, nothing comes after it. */
  lemma SteadyAtEnd(d: Data, env: Env, focus: int, elig: set<int>, urgent: set<int>, seen: set<int>, origin: int, lru: int)
    requires !d.skipUrgent && Finds(env, focus, elig, urgent, seen, origin, lru)
    ensures Steady(d, focus, elig, urgent, seen, origin, lru, [env])
  {
    assert [env][1..] == [];
  }

  /** The sample windows, as far as the sequence depends on them. */
  ghost predicate SampleWorld(env: Env, focus: int) {
    && WellFormed(env.wins) && FocusedId(env.wins) == focus && IsOpen(env.wins, 3) && IsOpen(env.wins, 1)
    && Eligible(env, false) == {1, 2} && Hinted(env, false) == {1}
    && exists k :: 0 <= k <= |env.wins| && SwitchOrder(env.wins, k, env.ticks)
  }

  lemma SampleWorlds(focus: int) returns (env: Env)
    requires 1 <= focus <= 3
    ensures SampleWorld(env, focus) && (focus == 3 ==> LruWindow(env.wins, env.ticks) == Some(1))
  {
    env := SampleEnv(focus);
    SampleFocus(focus);
    SampleOrder(focus);
    SampleWindows(focus);
    if focus == 3 {
      assert env.wins == SAMPLE;
      SampleStart();
    }
  }

  lemma SampleFinds(env: Env, focus: int, seen: set<int>)
    requires SampleWorld(env, focus)
    ensures Finds(env, focus, {1, 2}, {1}, seen, 3, 1)
  {}

  /** In such worlds the first command goes to the matching window. */
  lemma SampleFirst(d: Data, e0: Env, e1: Env) returns (d': Data)
    requires !d.skipUrgent && !d.skipLru && Touring(Entered(d, e0.wins, e0.ticks), 3, {3}, 3, 1)
    requires FocusedId(e0.wins) == 3 && Eligible(e0, false) == {1, 2} && FocusedId(e1.wins) == 2
    ensures SwitchIn(d, e0) == (d', Outcome.Switched(Matching, 2)) && SameFlags(d, d')
    ensures Touring(Entered(d', e1.wins, e1.ticks), 2, {3} + {2}, 3, 1)
  {
    assert {1, 2} - {3} - {1} == {2};
    d' := OnlyCandidateStep(d, e0, e1, {1, 2}, 3, 1, 2);
  }

  /** The next two go to the urgent window and back. */
  lemma SampleTail(d: Data, e1: Env, e2: Env)
    requires !d.skipUrgent && !d.skipLru && SampleWorld(e1, 2) && SampleWorld(e2, 1)
    requires Touring(Entered(d, e1.wins, e1.ticks), 2, {3} + {2}, 3, 1)
    ensures Steady(d, 2, {1, 2}, {1}, {3} + {2}, 3, 1, [e1] + [e2])
  {
    assert {1, 2} - ({3} + {2}) - {1} == {};
    var d' := LruStepFollows(d, e1, {1, 2}, {3} + {2}, 3, 1);
    SampleFinds(e2, 1, {3} + {2} + {1});
    SteadyAtEnd(d', e2, 1, {1, 2}, {1}, {3} + {2} + {1}, 3, 1);
    SampleFinds(e1, 2, {3} + {2});
    SteadyExtends(d, e1, [e2], 2, {1, 2}, {1}, {3} + {2}, 3, 1, d', Outcome.Switched(Lru, 1));
  }

  lemma SampleSteady(d: Data, e0: Env, e1: Env, e2: Env)
    requires d == Reset(d) && !d.skipUrgent && !d.skipLru
    requires SampleWorld(e0, 3) && SampleWorld(e1, 2) && SampleWorld(e2, 1) && LruWindow(e0.wins, e0.ticks) == Some(1)
    ensures Steady(d, 3, {1, 2}, {1}, {3}, 3, 1, [e0] + ([e1] + [e2]))
  {
    FreshEntry(d, e0, 3, 1);
    var d' := SampleFirst(d, e0, e1);
    SampleTail(d', e1, e2);
    SampleFinds(e0, 3, {3});
    SteadyExtends(d, e0, [e1] + [e2], 3, {1, 2}, {1}, {3}, 3, 1, d', Outcome.Switched(Matching, 2));
  }

  /** A steady sequence that starts fresh with one candidate. */
  lemma FreshWithOne(d: Data, envs: seq<Env>, elig: set<int>, urgent: set<int>, origin: int, lru: int, id: int)
    requires d == Reset(d) && !d.skipLru && !d.skipOrigin && |envs| == 3
    requires FocusedId(envs[0].wins) == origin != NO_WINDOW && LruWindow(envs[0].wins, envs[0].ticks) == Some(lru)
    requires Eligible(envs[0], false) == elig && Hinted(envs[0], false) == urgent && elig - {origin} - {lru} == {id}
    requires Steady(d, origin, elig, urgent, {origin}, origin, lru, envs) && lru in urgent && id !in urgent
    ensures FreshTour(d, envs, origin, lru, {id}) && UrgencyKept(d, urgent, {origin}, envs)
    ensures !DocumentedOrder(Outcomes(d, envs), urgent, elig)
  {
    assert |{id}| == 1;
    assert FreshTour(d, envs, origin, lru, {id});
    DocumentedOrderExactly(d, envs, origin, lru, {id});
    assert id in {id};
  }

  lemma SampleSequence() returns (d: Data, envs: seq<Env>)
    ensures d == Reset(d) && !d.skipLru && !d.skipOrigin && |envs| == 3
    ensures FocusedId(envs[0].wins) == 3 && LruWindow(envs[0].wins, envs[0].ticks) == Some(1)
    ensures Eligible(envs[0], false) == {1, 2} && Hinted(envs[0], false) == {1}
    ensures Steady(d, 3, {1, 2}, {1}, {3}, 3, 1, envs)
  {
    d := Data([], None, None, false, false, false);
    var e0 := SampleWorlds(3);
    var e1 := SampleWorlds(2);
    var e2 := SampleWorlds(1);
    SampleSteady(d, e0, e1, e2);
    envs := [e0] + ([e1] + [e2]);
  }

  /** An undisturbed sequence with an urgent LRU window and a matching one, whose order is not the documented one. */
  lemma WholeSequenceCounterexample() returns (d: Data, envs: seq<Env>)
    ensures FreshTour(d, envs, 3, 1, {2}) && UrgencyKept(d, Hinted(envs[0], d.skipUrgent), {3}, envs)
    ensures !DocumentedOrder(Outcomes(d, envs), Hinted(envs[0], d.skipUrgent), Eligible(envs[0], d.skipUrgent))
  {
    d, envs := SampleSequence();
    assert {1, 2} - {3} - {1} == {2};
    FreshWithOne(d, envs, {1, 2}, {1}, 3, 1, 2);
  }
}
