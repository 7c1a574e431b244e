/** What whole series of switch commands do (cmds.rs, `exec_swayr_cmd` and the switch engine). */
module SwitchSequences {
  import opened Options
  import opened Seqs
  import opened Focus
  import opened Nodes
  import opened Switching
  import CriteriaParser
  import CriteriaRoundTrip

  // ---------------------------------------------------------------------------------------
  // Any run: focus changes, openings, closings and tick updates between commands

  datatype Target = Urgent | App(name: string) | Mark(conMark: string) | Criteria(query: string)

  /** A client command; next/prev commands and all others are only told apart by `tag`. */
  datatype Cmd =
    | SwitchTo(target: Target, skipUrgent: bool, skipLru: bool, skipOrigin: bool)
    | NextPrev(tag: string)
    | Other(tag: string)

  /** A command together with the world it finds: windows, ticks and what its target matches. */
  datatype Request = Request(cmd: Cmd, wins: seq<Node>, ticks: Ticks, pred: Node -> bool)

  /** How a sequence started. */
  datatype Start = Start(origin: Option<int>, lru: Option<int>, skipLru: bool)

  datatype Visit = Visit(kind: Kind, id: int)

  /** One sequence, from its initialization to its reset. */
  datatype Segment = NotStarted | Segment(start: Start, visits: seq<Visit>)

  /** The engine with the history of its sequences. */
  datatype Engine = Engine(data: Data, last: Cmd, closed: seq<Segment>, current: Segment)

  const FRESH := Engine(Data([], None, None, false, false, false), Other("nop"), [], NotStarted)

  /** Ends the open sequence, if there is one. */
  function Close(en: Engine): Engine {
    if en.current.NotStarted? then en else en.(closed := en.closed + [en.current], current := NotStarted)
  }

  /** A switch command runs the engine unless its query does not parse. */
  predicate RunsEngine(cmd: Cmd) {
    cmd.SwitchTo? && (cmd.target.Criteria? ==> CriteriaParser.ParseCriteria(cmd.target.query).Some?)
  }

  /** One pass of the engine, recorded. */
  function RecordPass(en: Engine, r: Request): Engine {
    var (d', out) := Pass(en.data, r.wins, r.ticks, r.pred);
    var e := Entered(en.data, r.wins, r.ticks);
    var seg := Opened(e, en.current);
    var visited := if out.Switched? then seg.(visits := seg.visits + [Visit(out.kind, out.id)]) else seg;
    var en' := en.(data := d', current := visited);
    if d'.visited == [] then Close(en') else en'
  }

  /** One invocation of the engine, recorded. */
  function RecordSwitch(en: Engine, r: Request): Engine {
    var once := RecordPass(en, r);
    if Pass(en.data, r.wins, r.ticks, r.pred).1.Exhausted? && en.data.visited != [] then RecordPass(once, r) else once
  }

  /** A different command nukes the data before anything else happens. */
  function Cleared(en: Engine, cmd: Cmd): Engine {
    if cmd != en.last then Close(en).(data := FRESH.data, last := cmd) else en
  }

  /** The data a switch command hands to the engine: its own skip flags. */
  function Armed(d: Data, cmd: Cmd): Data
    requires cmd.SwitchTo?
  {
    d.(skipUrgent := cmd.skipUrgent, skipLru := cmd.skipLru, skipOrigin := cmd.skipOrigin)
  }

  /** `exec_swayr_cmd` as far as the switch data is concerned. */
  function Exec(en: Engine, r: Request): Engine {
    var cleared := Cleared(en, r.cmd);
    if !r.cmd.SwitchTo? then cleared
    else
      var armed := cleared.(data := Armed(cleared.data, r.cmd));
      if RunsEngine(r.cmd) then RecordSwitch(armed, r) else armed
  }

  /** The outcome of the one engine invocation a switch command makes. */
  function SwitchOf(en: Engine, r: Request): (Data, Outcome)
    requires r.cmd.SwitchTo?
  {
    Switch(Armed(Cleared(en, r.cmd).data, r.cmd), r.wins, r.ticks, r.pred)
  }

  /** The sequence touched last. */
  function Newest(en: Engine): Segment {
    if en.current.Segment? || en.closed == [] then en.current else en.closed[|en.closed| - 1]
  }

  /** The history is about the engine: its data is what one invocation leaves. */
  lemma ExecRunsSwitch(en: Engine, r: Request)
    requires r.cmd.SwitchTo?
    ensures Exec(en, r).data == if RunsEngine(r.cmd) then SwitchOf(en, r).0 else Armed(Cleared(en, r.cmd).data, r.cmd)
  {}

  /** Every switch command runs the engine but one whose query spells no criterion. */
  lemma EngineRunsExactly(cmd: Cmd)
    requires cmd.SwitchTo?
    ensures RunsEngine(cmd) <==> !cmd.target.Criteria? || exists c :: CriteriaRoundTrip.Spells(cmd.target.query, c)
  {
    if cmd.target.Criteria? {
      CriteriaRoundTrip.ParserIsGrammar(cmd.target.query);
      var r := CriteriaParser.ParseCriteria(cmd.target.query);
      if r.Some? {
        assert CriteriaRoundTrip.Spells(cmd.target.query, r.value);
      }
    }
  }

  /** A query that spells nothing starts over like any command and sets the flags; no window is visited. */
  lemma UnreadableQuery(en: Engine, r: Request)
    requires r.cmd.SwitchTo? && r.cmd.target.Criteria? && forall c :: !CriteriaRoundTrip.Spells(r.cmd.target.query, c)
    ensures var en' := Exec(en, r);
            && en'.last == r.cmd
            && en'.data.skipUrgent == r.cmd.skipUrgent && en'.data.skipLru == r.cmd.skipLru
            && en'.data.skipOrigin == r.cmd.skipOrigin
            && (en.last == r.cmd ==>
                  en'.data.visited == en.data.visited && en'.current == en.current && en'.closed == en.closed)
            && (en.last != r.cmd ==> en'.data.visited == [] && en'.current == NotStarted)
  {
    EngineRunsExactly(r.cmd);
  }

  /** The window a switch command focuses is recorded as the newest visit. */
  lemma ExecRecordsVisit(en: Engine, r: Request)
    requires r.cmd.SwitchTo?
    ensures var out := SwitchOf(en, r).1;
            RunsEngine(r.cmd) && out.Switched? ==>
              var seg := Newest(Exec(en, r));
              seg.Segment? && seg.visits != [] && seg.visits[|seg.visits| - 1] == Visit(out.kind, out.id)
  {
    var armed := Cleared(en, r.cmd).(data := Armed(Cleared(en, r.cmd).data, r.cmd));
    RecordedVisit(armed, r);
    RecordedVisit(RecordPass(armed, r), r);
  }

  lemma RecordedVisit(en: Engine, r: Request)
    ensures var out := Pass(en.data, r.wins, r.ticks, r.pred).1;
            out.Switched? ==>
              var seg := Newest(RecordPass(en, r));
              seg.Segment? && seg.visits != [] && seg.visits[|seg.visits| - 1] == Visit(out.kind, out.id)
  {}

  /** The command bookkeeping that outlives a command: the last command and the switch data. */
  class Commands {
    var lastCommand: Cmd
    const stm: SwitchToMatchingData

    constructor ()
      ensures fresh(stm) && stm.Contents() == FRESH.data && lastCommand == FRESH.last
    {
      lastCommand := Other("nop");
      stm := new SwitchToMatchingData();
    }

    /** The switch commands: set the flags, and run the engine if there is a predicate to run it with. */
    method SwitchWith(r: Request) returns (focus: Option<int>)
      requires r.cmd.SwitchTo?
      modifies stm
      ensures var (d, out) := Switch(Armed(old(stm.Contents()), r.cmd), r.wins, r.ticks, r.pred);
              if RunsEngine(r.cmd) then stm.Contents() == d && focus == FocusedBy(out)
              else stm.Contents() == Armed(old(stm.Contents()), r.cmd) && focus == None
    {
      focus := None;
      stm.skipUrgent := r.cmd.skipUrgent;
      stm.skipLru := r.cmd.skipLru;
      stm.skipOrigin := r.cmd.skipOrigin;
      if RunsEngine(r.cmd) {
        var depth;
        focus, depth := stm.FocusUrgentOrMatchingOrLru(r.wins, r.ticks, r.pred);
      }
    }

    /** Tells the lock-in thread to inhibit or to activate, and switches if that is the command. */
    method ExecSwayrCmd(r: Request, fdata: FocusData, ghost en: Engine) returns (focus: Option<int>)
      requires en.data == stm.Contents() && en.last == lastCommand
      modifies this, stm, fdata
      ensures stm.Contents() == Exec(en, r).data && lastCommand == Exec(en, r).last == r.cmd
      ensures fdata.focusTickById == old(fdata.focusTickById)
      ensures fdata.focusChan == old(fdata.focusChan) + [if r.cmd.NextPrev? then TickUpdateInhibit else TickUpdateActivate]
      ensures focus == if RunsEngine(r.cmd) then FocusedBy(SwitchOf(en, r).1) else None
    {
      focus := None;
      if r.cmd != lastCommand {
        stm.ResetData(true);
      }
      if r.cmd.NextPrev? {
        fdata.Send(TickUpdateInhibit);
      } else {
        fdata.Send(TickUpdateActivate);
      }
      if r.cmd.SwitchTo? {
        ExecRunsSwitch(en, r);
        focus := SwitchWith(r);
      }
      lastCommand := r.cmd;
    }
  }

  function ExecAll(en: Engine, rs: seq<Request>): Engine
    decreases |rs|
  {
    if rs == [] then en else ExecAll(Exec(en, rs[0]), rs[1..])
  }

  /** The origin is only visited by the closing step; the LRU window, if not skipped, only by its own. */
  predicate VisitSound(v: Visit, start: Start, closing: bool) {
    match v.kind
    case Matching => Some(v.id) != start.origin && (!start.skipLru ==> Some(v.id) != start.lru)
    case Lru => Some(v.id) == start.lru && start.lru != start.origin
    case Origin => Some(v.id) == start.origin && closing
  }

  /** No window is visited twice, and every visit is of its kind. */
  ghost predicate Sound(seg: Segment) {
    seg.Segment? ==>
      && (forall i, j :: 0 <= i < j < |seg.visits| ==> seg.visits[i].id != seg.visits[j].id)
      && (forall i :: 0 <= i < |seg.visits| ==> VisitSound(seg.visits[i], seg.start, i == |seg.visits| - 1))
  }

  /** The open sequence is what the engine's data says it is. */
  ghost predicate Tracks(d: Data, seg: Segment) {
    if d.visited == [] then seg.NotStarted? && d.origin.None?
    else
      && seg.Segment? && seg.start == Start(d.origin, d.lru, d.skipLru)
      && (d.origin.Some? ==> d.origin.value in d.visited)
      && (forall i :: 0 <= i < |seg.visits| ==> seg.visits[i].id in d.visited && !seg.visits[i].kind.Origin?
                                                && Some(seg.visits[i].id) != d.origin)
  }

  ghost predicate Inv(en: Engine) {
    && AllSound(en.closed)
    && Sound(en.current) && Tracks(en.data, en.current)
    && (en.data.visited != [] ==>
          en.last.SwitchTo? && en.last.skipLru == en.data.skipLru
          && en.last.skipUrgent == en.data.skipUrgent && en.last.skipOrigin == en.data.skipOrigin)
  }

  function Opened(e: Data, seg: Segment): Segment {
    if seg.NotStarted? then Segment(Start(e.origin, e.lru, e.skipLru), []) else seg
  }

  lemma EnterTracks(d: Data, seg: Segment, wins: seq<Node>, ticks: Ticks)
    requires Tracks(d, seg) && Sound(seg)
    ensures var e := Entered(d, wins, ticks);
            && e.visited != [] && FocusedId(wins) in e.visited
            && Tracks(e, Opened(e, seg)) && Sound(Opened(e, seg))
  {}

  lemma VisitTracks(e: Data, seg: Segment, kind: Kind, id: int)
    requires e.visited != [] && Tracks(e, seg) && Sound(seg)
    requires id !in e.visited && VisitSound(Visit(kind, id), seg.start, false)
    ensures var seg' := seg.(visits := seg.visits + [Visit(kind, id)]);
            Sound(seg') && Tracks(e.(visited := e.visited + [id]), seg')
  {}

  lemma OriginSound(e: Data, seg: Segment, id: int)
    requires e.visited != [] && Tracks(e, seg) && Sound(seg) && e.origin == Some(id)
    ensures Sound(seg.(visits := seg.visits + [Visit(Origin, id)]))
  {}

  ghost predicate AllSound(closed: seq<Segment>) {
    forall i :: 0 <= i < |closed| ==> Sound(closed[i])
  }

  /** What a recorded pass or invocation keeps, whatever the last command was. */
  ghost predicate Recorded(en: Engine) {
    AllSound(en.closed) && Sound(en.current) && Tracks(en.data, en.current)
  }

  lemma RecordPassKeepsInv(en: Engine, r: Request)
    requires Recorded(en)
    ensures var en' := RecordPass(en, r);
            && Recorded(en') && en'.last == en.last
            && en'.data.skipLru == en.data.skipLru && en'.data.skipUrgent == en.data.skipUrgent
            && en'.data.skipOrigin == en.data.skipOrigin
  {
    var e := Entered(en.data, r.wins, r.ticks);
    var seg := Opened(e, en.current);
    EnterTracks(en.data, en.current, r.wins, r.ticks);
    PassTarget(en.data, r);
    var out := Pass(en.data, r.wins, r.ticks, r.pred).1;
    if out.Switched? {
      if out.kind.Origin? {
        OriginSound(e, seg, out.id);
      } else {
        VisitTracks(e, seg, out.kind, out.id);
      }
    }
  }

  /** Where a pass may go, in terms of the data it entered with. */
  lemma PassTarget(d: Data, r: Request)
    ensures var e := Entered(d, r.wins, r.ticks);
            var (d', out) := Pass(d, r.wins, r.ticks, r.pred);
            && (out.Switched? && out.kind.Origin? ==> e.origin == Some(out.id) && d' == Reset(e))
            && (out.Switched? && !out.kind.Origin? ==> out.id !in e.visited && d' == e.(visited := e.visited + [out.id]))
            && (out.Switched? && out.kind.Matching? && !e.skipLru ==> e.lru != Some(out.id))
            && (out.Switched? && out.kind.Lru? ==> e.lru == Some(out.id))
            && (out.Exhausted? ==> d' == Reset(e))
  {
    var e := Entered(d, r.wins, r.ticks);
    FindFirst(r.wins, (w: Node) => Candidate(w, e, FocusedId(r.wins), r.pred));
  }

  lemma RecordSwitchKeepsInv(en: Engine, r: Request)
    requires Recorded(en)
    ensures var en' := RecordSwitch(en, r);
            && Recorded(en') && en'.last == en.last && en'.data.skipLru == en.data.skipLru
            && en'.data.skipUrgent == en.data.skipUrgent && en'.data.skipOrigin == en.data.skipOrigin
  {
    RecordPassKeepsInv(en, r);
    RecordPassKeepsInv(RecordPass(en, r), r);
  }

  lemma ClearedKeepsInv(en: Engine, cmd: Cmd)
    requires Inv(en)
    ensures Inv(Cleared(en, cmd)) && Cleared(en, cmd).last == cmd
  {}

  lemma ArmedTracks(d: Data, seg: Segment, cmd: Cmd)
    requires cmd.SwitchTo? && Tracks(d, seg) && (d.visited != [] ==> cmd.skipLru == d.skipLru)
    ensures Tracks(Armed(d, cmd), seg)
  {}

  lemma ExecKeepsInv(en: Engine, r: Request)
    requires Inv(en)
    ensures Inv(Exec(en, r))
  {
    var cleared := Cleared(en, r.cmd);
    ClearedKeepsInv(en, r.cmd);
    if r.cmd.SwitchTo? {
      ArmedTracks(cleared.data, cleared.current, r.cmd);
      RecordSwitchKeepsInv(cleared.(data := Armed(cleared.data, r.cmd)), r);
    }
  }

  lemma {:induction false} InvAlongRequests(en: Engine, rs: seq<Request>)
    requires Inv(en)
    ensures Inv(ExecAll(en, rs))
    decreases |rs|
  {
    if rs != [] {
      ExecKeepsInv(en, rs[0]);
      InvAlongRequests(Exec(en, rs[0]), rs[1..]);
    }
  }

  /** Over every series of commands in an arbitrarily changing world, every sequence is sound. */
  lemma EverySequenceSound(rs: seq<Request>)
    ensures var en := ExecAll(FRESH, rs);
            Sound(en.current) && AllSound(en.closed)
  {
    InvAlongRequests(FRESH, rs);
  }
}
