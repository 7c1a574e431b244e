/** Switch tours as series of commands: what the daemon records when a switch command is repeated (cmds.rs). */
module SwitchRuns {
  import opened Options
  import opened Listings
  import opened Switching
  import opened SwitchSequences
  import opened SwitchTours

  /** The same command once per environment. */
  function Requests(cmd: Cmd, envs: seq<Env>): seq<Request> {
    if envs == [] then [] else [RequestIn(cmd, envs[0])] + Requests(cmd, envs[1..])
  }

  function RequestIn(cmd: Cmd, env: Env): Request {
    Request(cmd, env.wins, env.ticks, env.pred)
  }

  /** The data a sequence of the command starts with. */
  function StartData(cmd: Cmd): Data
    requires cmd.SwitchTo?
  {
    Armed(FRESH.data, cmd)
  }

  /** The visits that a series of outcomes records. */
  function VisitsOf(outs: seq<Outcome>): seq<Visit> {
    if outs == [] then []
    else (if outs[0].Switched? then [Visit(outs[0].kind, outs[0].id)] else []) + VisitsOf(outs[1..])
  }

  /** Every command of the series switches, in one pass, and only the last one may return to the origin. */
  ghost predicate Direct(d: Data, envs: seq<Env>)
    decreases |envs|
  {
    envs != [] ==>
      && PassesOnce(d, envs[0]) && SwitchIn(d, envs[0]).1.Switched?
      && (SwitchIn(d, envs[0]).1.kind.Origin? ==> |envs| == 1)
      && Direct(SwitchIn(d, envs[0]).0, envs[1..])
  }

  // ---------------------------------------------------------------------------------------
  // A tour is direct

  lemma DirectOrigin(d: Data, focus: int, elig: set<int>, seen: set<int>, origin: int, lru: int, envs: seq<Env>)
    requires |envs| == 1 && Returns(d, origin) && focus != origin && (d.skipLru || lru in seen)
    requires Touring(Entered(d, envs[0].wins, envs[0].ticks), focus, seen, origin, lru)
    requires Undisturbed(d, focus, elig, seen, origin, lru, envs) && elig - seen - Reserved(d, lru) == {}
    ensures Direct(d, envs)
  {
    CandidatesAreUnseen(d, envs[0], elig, seen, origin, lru);
    OriginStep(d, envs[0], seen, origin, lru);
    assert envs[1..] == [];
  }

  lemma DirectTail(d: Data, focus: int, elig: set<int>, seen: set<int>, origin: int, lru: int, envs: seq<Env>)
    requires OnTour(d, focus, seen, origin, lru, envs) && |envs| == |Tail(d, origin, lru)|
    requires Undisturbed(d, focus, elig, seen, origin, lru, envs) && elig - seen - Reserved(d, lru) == {}
    requires d.skipLru ==> focus != origin
    ensures Direct(d, envs)
  {
    if d.skipLru {
      if Returns(d, origin) {
        DirectOrigin(d, focus, elig, seen, origin, lru, envs);
      }
    } else {
      var e := Entered(d, envs[0].wins, envs[0].ticks);
      CandidatesAreUnseen(d, envs[0], elig, seen, origin, lru);
      LruStep(d, envs[0], seen, origin, lru);
      var d' := SwitchIn(d, envs[0]).0;
      if Returns(d, origin) {
        StillTouring(e, focus, seen, origin, lru, lru, envs[1]);
        DirectOrigin(d', lru, elig, seen + {lru}, origin, lru, envs[1..]);
      }
    }
  }

  lemma {:induction false} DirectFrom(d: Data, focus: int, elig: set<int>, seen: set<int>,
      origin: int, lru: int, envs: seq<Env>)
    requires OnTour(d, focus, seen, origin, lru, envs) && Undisturbed(d, focus, elig, seen, origin, lru, envs)
    requires |envs| == |elig - seen - Reserved(d, lru)| + |Tail(d, origin, lru)|
    requires d.skipLru && elig - seen == {} ==> focus != origin
    ensures Direct(d, envs)
    decreases |envs|
  {
    var todo := elig - seen - Reserved(d, lru);
    if todo == {} {
      assert d.skipLru ==> elig - seen == todo;
      DirectTail(d, focus, elig, seen, origin, lru, envs);
    } else {
      var (d', out) := SwitchIn(d, envs[0]);
      TourStep(d, focus, elig, seen, origin, lru, envs);
      SeenNoLongerOpen(elig, seen, Reserved(d, lru), out.id);
      DirectFrom(d', out.id, elig, seen + {out.id}, origin, lru, envs[1..]);
    }
  }

  // ---------------------------------------------------------------------------------------
  // A direct series is recorded visit by visit

  /** The engine has just executed the command, and the data carries its flags. */
  predicate Repeats(en: Engine, cmd: Cmd) {
    RunsEngine(cmd) && en.last == cmd && Armed(en.data, cmd) == en.data
  }

  /** The segment that the series extends. */
  function Extended(en: Engine, env: Env, outs: seq<Outcome>): Segment {
    var seg := Opened(Entered(en.data, env.wins, env.ticks), en.current);
    seg.(visits := seg.visits + VisitsOf(outs))
  }

  /** One direct command: one more visit; a return to the origin closes the sequence. */
  lemma DirectExec(en: Engine, cmd: Cmd, env: Env)
    requires Repeats(en, cmd) && PassesOnce(en.data, env) && SwitchIn(en.data, env).1.Switched?
    ensures var (d', out) := SwitchIn(en.data, env);
            var en', seg := Exec(en, RequestIn(cmd, env)), Extended(en, env, [out]);
            && en'.data == d' && Repeats(en', cmd)
            && if out.kind.Origin? then en'.closed == en.closed + [seg] && en'.current == NotStarted
               else en'.closed == en.closed && en'.current == seg
  {
    var r := RequestIn(cmd, env);
    PassTarget(en.data, r);
    var out := SwitchIn(en.data, env).1;
    assert VisitsOf([out]) == [Visit(out.kind, out.id)];
    assert Exec(en, r) == RecordPass(en, r);
  }

  lemma {:induction false} SeriesRecorded(en: Engine, cmd: Cmd, envs: seq<Env>)
    requires envs != [] && Repeats(en, cmd) && Direct(en.data, envs)
    ensures var outs := Outcomes(en.data, envs);
            var en', seg := ExecAll(en, Requests(cmd, envs)), Extended(en, envs[0], outs);
            && outs != [] && outs[|outs| - 1].Switched? && en'.data == FinalData(en.data, envs)
            && if outs[|outs| - 1].kind.Origin? then en'.closed == en.closed + [seg] && en'.current == NotStarted
               else en'.closed == en.closed && en'.current == seg
    decreases |envs|
  {
    var r := RequestIn(cmd, envs[0]);
    var en1 := Exec(en, r);
    var (d', out) := SwitchIn(en.data, envs[0]);
    DirectExec(en, cmd, envs[0]);
    assert Requests(cmd, envs)[0] == r && Requests(cmd, envs)[1..] == Requests(cmd, envs[1..]);
    if |envs| == 1 {
      assert envs[1..] == [];
      assert Outcomes(en.data, envs) == [out];
      assert ExecAll(en, Requests(cmd, envs)) == en1;
    } else {
      SeriesRecorded(en1, cmd, envs[1..]);
      ExtendedTwice(en, en1, envs[0], envs[1], out, Outcomes(d', envs[1..]));
    }
  }

  lemma ExtendedTwice(en: Engine, en1: Engine, env: Env, next: Env, out: Outcome, outs: seq<Outcome>)
    requires out.Switched? && en1.current == Extended(en, env, [out])
    ensures Extended(en1, next, outs) == Extended(en, env, [out] + outs)
  {
    var seg := Opened(Entered(en.data, env.wins, env.ticks), en.current);
    var v := [Visit(out.kind, out.id)];
    assert VisitsOf([out]) == v;
    assert ([out] + outs)[1..] == outs;
    assert VisitsOf([out] + outs) == v + VisitsOf(outs);
    assert (seg.visits + v) + VisitsOf(outs) == seg.visits + (v + VisitsOf(outs));
  }

  // ---------------------------------------------------------------------------------------
  // The command tour

  /** A different command than before leaves the engine as if this one had just been executed, with no open sequence. */
  lemma FirstCommandClears(en: Engine, cmd: Cmd, rs: seq<Request>)
    requires RunsEngine(cmd) && en.last != cmd && rs != [] && rs[0].cmd == cmd
    ensures var start := Close(en).(data := StartData(cmd), last := cmd);
            Repeats(start, cmd) && ExecAll(en, rs) == ExecAll(start, rs)
  {}

  lemma FreshIsDirect(d: Data, envs: seq<Env>, origin: int, lru: int, todo: set<int>)
    requires FreshTour(d, envs, origin, lru, todo)
    ensures Direct(d, envs)
  {
    FreshIsOnTour(d, envs, origin, lru, todo);
    DirectFrom(d, origin, Eligible(envs[0], d.skipUrgent), {origin}, origin, lru, envs);
  }

  /** How a tour ends: at the origin, unless that step is skipped. */
  lemma TourEnd(outs: seq<Outcome>, todo: set<int>, d: Data, origin: int, lru: int)
    requires Tour(outs, todo, Tail(d, origin, lru)) && outs != []
    requires outs[|outs| - 1].Switched?
    ensures outs[|outs| - 1].kind.Origin? <==> Returns(d, origin)
  {
    var tail := Tail(d, origin, lru);
    if tail != [] {
      assert outs[|outs| - 1] == outs[|todo|..][|tail| - 1] == tail[|tail| - 1];
    }
  }

  /**
   A switch command repeated in an undisturbed world, after any other command: the daemon records
   exactly one more sequence, from the origin and the LRU window of its start, whose visits are the
   tour; it is closed by the return to the origin, or still open if that step is skipped or there is no origin.
   */
  lemma CommandTour(en: Engine, cmd: Cmd, envs: seq<Env>, origin: int, lru: int, todo: set<int>)
    requires RunsEngine(cmd) && en.last != cmd && FreshTour(StartData(cmd), envs, origin, lru, todo)
    ensures var outs := Outcomes(StartData(cmd), envs);
            var en' := ExecAll(en, Requests(cmd, envs));
            var seg := Segment(Start(OriginOf(origin), Some(lru), cmd.skipLru), VisitsOf(outs));
            && Tour(outs, todo, Tail(StartData(cmd), origin, lru))
            && StartData(cmd) == Data([], None, None, cmd.skipUrgent, cmd.skipLru, cmd.skipOrigin)
            && if cmd.skipOrigin || origin == NO_WINDOW then en'.closed == Close(en).closed && en'.current == seg
               else en'.closed == Close(en).closed + [seg] && en'.current == NotStarted && en'.data == StartData(cmd)
  {
    var d := StartData(cmd);
    var start := Close(en).(data := d, last := cmd);
    var outs := Outcomes(d, envs);
    FirstCommandClears(en, cmd, Requests(cmd, envs));
    FreshIsDirect(d, envs, origin, lru, todo);
    SeriesRecorded(start, cmd, envs);
    SwitchTour(d, envs, origin, lru, todo);
    TourEnd(outs, todo, d, origin, lru);
    FreshSegment(start, envs[0], origin, lru, outs);
  }

  lemma FreshSegment(start: Engine, env: Env, origin: int, lru: int, outs: seq<Outcome>)
    requires start.current == NotStarted && start.data == Reset(start.data)
    requires WellFormed(env.wins) && FocusedId(env.wins) == origin && LruWindow(env.wins, env.ticks) == Some(lru)
    ensures Extended(start, env, outs) == Segment(Start(OriginOf(origin), Some(lru), start.data.skipLru), VisitsOf(outs))
  {
    FocusedIdMeaning(env.wins);
    assert [] + VisitsOf(outs) == VisitsOf(outs);
  }
}
