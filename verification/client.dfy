/** The ingestion loop of the client, as a pure step function folded over
    the received lines.

    The state is what the loop keeps between lines: the first and the
    latest server time, the current coords and everything written to the
    output file so far.  Each line goes through ordered substring tests
    (TIME, KISMET, the burst window, NETWORK, GPS, PROTOCOLS, anything
    else) and takes the first branch whose test holds.  The barometer
    reading that a NETWORK line would record is supplied with the line. */
module Client {
  import opened Outcomes
  import opened Text
  import opened Sentences
  import opened CsvRecord

  const TimeTag: string := "*TIME: "
  const KismetTag: string := "*KISMET: "
  const NetworkTag: string := "*NETWORK: "
  const GpsTag: string := "*GPS"
  const ProtocolsTag: string := "*PROTOCOLS: "

  /** Server seconds after the first TIME line during which the server
      is still replaying its history and lines are ignored. */
  const BurstWindow: int := 2

  /** What happens to the output file, in order. */
  datatype Event =
    | HeaderWritten(cells: seq<string>)
    | RowWritten(cells: seq<string>)
    | Flushed
    | Synced

  /** The variables the loop keeps between lines.  `coords` is empty until
      a GPS line is accepted. */
  datatype State = State(startTime: int, time: int, coords: map<Field, string>, trace: seq<Event>)

  /** One received line, with the altitude the barometer would report if
      the line is recorded. */
  datatype Input = Input(line: string, alt: string)

  /** The branch of the loop body a line takes. */
  datatype Branch = TimeLine | ServerInfo | Burst | NetworkLine | GpsLine | ProtocolList | Unrecognised

  /** How a session over a finite input ends: every line processed, or an
      uncaught exception on line `at`, with the state before that line. */
  datatype Session = Finished(st: State) | Crashed(st: State, at: nat, exc: Exception)

  /** The state when the loop starts: no time seen, no coords, and the
      header already written. */
  function Start(): State {
    State(0, 0, map[], [HeaderWritten(HeaderRow())])
  }

  /** The loop starts inside the burst window, with the header as the
      only thing in the file, in a state the loop keeps well formed. */
  lemma StartState()
    ensures WellFormed(Start()) && InBurst(Start())
    ensures Rows(Start().trace) == []
  {
  }

  /** Still inside the replay burst: less than `BurstWindow` seconds of
      server time since the first TIME line.  This includes the start,
      where both times are 0. */
  predicate InBurst(st: State) {
    st.time - st.startTime < BurstWindow
  }

  // ---------------------------------------------------------------------
  // The output trace
  // ---------------------------------------------------------------------

  /** Zero or more rows, each followed by a flush and then a sync. */
  predicate Groups(t: seq<Event>)
    decreases |t|
  {
    |t| == 0 || (|t| >= 3 && t[0].RowWritten? && t[1] == Flushed && t[2] == Synced && Groups(t[3..]))
  }

  /** The header first, then only flushed and synced rows. */
  predicate TraceShape(t: seq<Event>) {
    |t| > 0 && t[0] == HeaderWritten(HeaderRow()) && Groups(t[1..])
  }

  /** The states the loop can reach from `Start`. */
  predicate WellFormed(st: State) {
    TraceShape(st.trace) && IsCoords(st.coords)
  }

  /** The rows written, in order: a list of cells is among them exactly
      when the file holds a row event with those cells. */
  function Rows(t: seq<Event>): (rows: seq<seq<string>>)
    ensures |rows| <= |t|
    ensures forall c :: c in rows <==> RowWritten(c) in t
    decreases |t|
  {
    if |t| == 0 then []
    else
      var rest := Rows(t[1..]);
      assert t == [t[0]] + t[1..];
      (if t[0].RowWritten? then [t[0].cells] else []) + rest
  }

  lemma {:induction false} RowsAppend(a: seq<Event>, b: seq<Event>)
    ensures Rows(a + b) == Rows(a) + Rows(b)
    decreases |a|
  {
    if |a| == 0 {
      assert a + b == b;
    } else {
      var head := if a[0].RowWritten? then [a[0].cells] else [];
      assert (a + b)[0] == a[0];
      assert (a + b)[1..] == a[1..] + b;
      RowsAppend(a[1..], b);
      assert Rows(a + b) == head + (Rows(a[1..]) + Rows(b));
      assert Rows(a) == head + Rows(a[1..]);
    }
  }

  lemma {:induction false} GroupsAppend(a: seq<Event>, b: seq<Event>)
    requires Groups(a) && Groups(b)
    ensures Groups(a + b)
    decreases |a|
  {
    if |a| == 0 {
      assert a + b == b;
    } else {
      assert (a + b)[3..] == a[3..] + b;
      GroupsAppend(a[3..], b);
    }
  }

  /** What a well-shaped trace promises about the file: the header is
      written once, before anything else, and every row is followed at
      once by a flush and then a sync. */
  lemma {:induction false} TraceOrder(t: seq<Event>)
    requires TraceShape(t)
    ensures t[0].HeaderWritten?
    ensures forall i :: 0 < i < |t| ==> !t[i].HeaderWritten?
    ensures forall i :: 0 <= i < |t| && t[i].RowWritten? ==> i + 2 < |t| && t[i + 1] == Flushed && t[i + 2] == Synced
  {
    GroupsOrder(t[1..]);
    forall i | 0 < i < |t|
      ensures t[i] == t[1..][i - 1]
    {
    }
  }

  lemma {:induction false} GroupsOrder(t: seq<Event>)
    requires Groups(t)
    ensures forall i :: 0 <= i < |t| ==> !t[i].HeaderWritten?
    ensures forall i :: 0 <= i < |t| && t[i].RowWritten? ==> i + 2 < |t| && t[i + 1] == Flushed && t[i + 2] == Synced
    decreases |t|
  {
    if |t| > 0 {
      GroupsOrder(t[3..]);
      forall i | 3 <= i < |t|
        ensures t[i] == t[3..][i - 3]
      {
      }
    }
  }

  /** Appending one flushed and synced row keeps the shape and adds
      exactly that row. */
  lemma AppendRecord(t: seq<Event>, row: seq<string>)
    requires TraceShape(t)
    ensures TraceShape(t + [RowWritten(row), Flushed, Synced])
    ensures Rows(t + [RowWritten(row), Flushed, Synced]) == Rows(t) + [row]
  {
    var g := [RowWritten(row), Flushed, Synced];
    assert g[3..] == [];
    assert (t + g)[1..] == t[1..] + g;
    GroupsAppend(t[1..], g);
    RowsAppend(t, g);
    assert g[1..][1..][1..] == [];
    assert Rows(g[1..][1..]) == [];
    assert Rows(g[1..]) == [];
    assert Rows(g) == [row];
  }

  // ---------------------------------------------------------------------
  // One line
  // ---------------------------------------------------------------------

  /** The branch a line takes: the first test, in the loop's order, that
      holds.  Testing a `*GPS` line reads its token 3, so a GPS line with
      fewer than three spaces raises IndexError before any branch runs. */
  function Classify(st: State, line: string): (r: Result<Branch>)
    ensures r == Ok(TimeLine) <==> Contains(line, TimeTag)
    ensures r == Ok(ServerInfo) <==> !Contains(line, TimeTag) && Contains(line, KismetTag)
    ensures r == Ok(Burst) <==> !Contains(line, TimeTag) && !Contains(line, KismetTag) && InBurst(st)
    ensures r == Ok(NetworkLine) <==>
      !Contains(line, TimeTag) && !Contains(line, KismetTag) && !InBurst(st) && Contains(line, NetworkTag)
    ensures r.Raised? <==>
      !Contains(line, TimeTag) && !Contains(line, KismetTag) && !InBurst(st) && !Contains(line, NetworkTag)
      && Contains(line, GpsTag) && |Tokens(line)| < 4
    ensures r.Raised? ==> r.exc == IndexError
    ensures r == Ok(GpsLine) <==>
      !Contains(line, TimeTag) && !Contains(line, KismetTag) && !InBurst(st) && !Contains(line, NetworkTag)
      && Contains(line, GpsTag) && |Tokens(line)| >= 4 && Tokens(line)[3] != ""
    ensures r == Ok(ProtocolList) <==>
      !Contains(line, TimeTag) && !Contains(line, KismetTag) && !InBurst(st) && !Contains(line, NetworkTag)
      && !(Contains(line, GpsTag) && (|Tokens(line)| < 4 || Tokens(line)[3] != ""))
      && Contains(line, ProtocolsTag)
    ensures r == Ok(Unrecognised) <==>
      !Contains(line, TimeTag) && !Contains(line, KismetTag) && !InBurst(st) && !Contains(line, NetworkTag)
      && !(Contains(line, GpsTag) && (|Tokens(line)| < 4 || Tokens(line)[3] != ""))
      && !Contains(line, ProtocolsTag)
  {
    if Contains(line, TimeTag) then Ok(TimeLine)
    else if Contains(line, KismetTag) then Ok(ServerInfo)
    else if InBurst(st) then Ok(Burst)
    else if Contains(line, NetworkTag) then Ok(NetworkLine)
    else if Contains(line, GpsTag) && |Tokens(line)| < 4 then Raised(IndexError)
    else if Contains(line, GpsTag) && Tokens(line)[3] != "" then Ok(GpsLine)
    else if Contains(line, ProtocolsTag) then Ok(ProtocolList)
    else Ok(Unrecognised)
  }

  /** The loop body for one line.  The log is append-only, a start time
      once set never changes, only a GPS line moves the coords and only a
      NETWORK line writes to the file. */
  function Step(st: State, line: string, alt: string): (r: Result<State>)
    ensures r.Ok? ==> st.trace <= r.value.trace
    ensures r.Ok? && st.startTime != 0 ==> r.value.startTime == st.startTime
    ensures r.Ok? && r.value.coords != st.coords ==> Classify(st, line) == Ok(GpsLine)
    ensures r.Ok? && r.value.trace != st.trace ==> Classify(st, line) == Ok(NetworkLine)
    ensures r.Ok? && WellFormed(st) ==> WellFormed(r.value)
  {
    match Classify(st, line)
    case Raised(e) => Raised(e)
    case Ok(TimeLine) =>
      var toks := Tokens(line);
      if |toks| < 2 then Raised(IndexError)
      else
        (match ParseInt(toks[1])
         case None => Raised(ValueError)
         case Some(t) =>
           if st.startTime == 0 then Ok(st.(startTime := t, time := t)) else Ok(st.(time := t)))
    case Ok(NetworkLine) => Record(st, line, alt)
    case Ok(GpsLine) =>
      (match FormatCoords(line)
       case Raised(e) => Raised(e)
       case Ok(coords) => Ok(st.(coords := coords)))
    case Ok(_) => Ok(st)
  }

  /** The NETWORK branch: parse the line, build the row from it, the
      coords and the altitude, and write it.  A line with fewer than five
      tokens raises IndexError before anything is written. */
  function Record(st: State, line: string, alt: string): (r: Result<State>)
    ensures r.Ok? <==> |Tokens(KeepPrintable(line))| > 4
    ensures r.Raised? ==> r.exc == IndexError
    ensures IsCoords(st.coords) && r.Ok? ==>
      var toks := Tokens(KeepPrintable(line));
      r.value == WriteRow(st, [Cell(st.coords, Lat), Cell(st.coords, Lon), Cell(st.coords, Fix),
                               toks[1], toks[2], toks[3], toks[4], alt])
  {
    match FormatNetwork(line)
    case Raised(e) => Raised(e)
    case Ok(network) =>
      NetworkCells(line, network);
      match LogSighting(network, st.coords, alt)
      case Raised(e) => Raised(e)
      case Ok(row) => Ok(WriteRow(st, row))
  }

  /** What the parsed network holds: exactly the four network keys, with
      tokens 1 to 4 of the filtered line. */
  lemma NetworkCells(line: string, network: map<Field, string>)
    requires FormatNetwork(line) == Ok(network)
    ensures IsNetwork(network)
    ensures var toks := Tokens(KeepPrintable(line));
      |toks| > 4 && network[Bssid] == toks[1] && network[NetType] == toks[2]
      && network[Ssid] == toks[3] && network[Rssi] == toks[4]
  {
  }

  /** `writerow`, then `flush`, then `fsync`: the row lands at the end of
      the file, after everything written before, and nothing else in the
      state changes. */
  function WriteRow(st: State, row: seq<string>): (st': State)
    ensures st'.trace == st.trace + [RowWritten(row), Flushed, Synced]
    ensures st'.coords == st.coords && st'.startTime == st.startTime && st'.time == st.time
    ensures TraceShape(st.trace) ==> TraceShape(st'.trace) && Rows(st'.trace) == Rows(st.trace) + [row]
  {
    var t := st.trace + [RowWritten(row), Flushed, Synced];
    if TraceShape(st.trace) then
      AppendRecord(st.trace, row);
      st.(trace := t)
    else st.(trace := t)
  }

  /** The TIME tag ends in a space, so a line that passes the TIME test
      always has a token 1: indexing it never raises. */
  lemma TimeHasToken1(line: string)
    requires Contains(line, TimeTag)
    ensures |Tokens(line)| >= 2
  {
    var i :| OccursAt(line, TimeTag, i);
    assert line[i + 6] == line[i..i + |TimeTag|][6] == ' ';
    CountAt(line, ' ', i + 6);
    SplitCount(line, ' ');
  }

  /** A TIME line sets the current time to the integer in token 1, and
      the start time too while it is still 0; it touches nothing else.
      Token 1 always exists, so the only error is ValueError, when it is
      not an integer. */
  lemma TimeLineStep(st: State, line: string, alt: string)
    requires Contains(line, TimeTag)
    ensures |Tokens(line)| >= 2
    ensures var toks := Tokens(line);
      var r := Step(st, line, alt);
      && (r.Ok? <==> ParseInt(toks[1]).Some?)
      && (r.Raised? ==> r.exc == ValueError)
      && (r.Ok? ==>
            && r.value.time == ParseInt(toks[1]).value
            && r.value.startTime == (if st.startTime == 0 then r.value.time else st.startTime)
            && r.value.coords == st.coords
            && r.value.trace == st.trace)
  {
    TimeHasToken1(line);
  }

  /** How the burst window moves.  Only a TIME line can open or close it.
      A TIME line that sets the start time leaves it open; any later one
      closes it exactly when its time is at least `BurstWindow` seconds
      past the start time, so a clock running backwards reopens it. */
  lemma WindowStep(st: State, line: string, alt: string)
    requires Step(st, line, alt).Ok?
    ensures !Contains(line, TimeTag) ==> (InBurst(Step(st, line, alt).value) <==> InBurst(st))
    ensures Contains(line, TimeTag) ==>
      && |Tokens(line)| >= 2 && ParseInt(Tokens(line)[1]).Some?
      && (InBurst(Step(st, line, alt).value) <==>
            st.startTime == 0 || ParseInt(Tokens(line)[1]).value - st.startTime < BurstWindow)
  {
  }

  /** Inside the burst window every line other than TIME and KISMET is
      ignored: NETWORK lines record nothing and GPS lines do not move the
      coords. */
  lemma BurstStep(st: State, line: string, alt: string)
    requires InBurst(st)
    requires !Contains(line, TimeTag) && !Contains(line, KismetTag)
    ensures Step(st, line, alt) == Ok(st)
  {
  }

  /** KISMET, PROTOCOLS and unrecognised lines change nothing. */
  lemma QuietStep(st: State, line: string, alt: string)
    requires Classify(st, line) in {Ok(ServerInfo), Ok(Burst), Ok(ProtocolList), Ok(Unrecognised)}
    ensures Step(st, line, alt) == Ok(st)
  {
  }

  /** After the burst window a NETWORK line writes exactly one row, then
      flushes and syncs, and leaves everything else alone.  The row holds
      the current coords (empty cells while there are none), tokens 1 to
      4 of the filtered line and the altitude reading.  A NETWORK line
      with fewer than four spaces raises IndexError. */
  lemma NetworkLineStep(st: State, line: string, alt: string)
    requires !Contains(line, TimeTag) && !Contains(line, KismetTag) && !InBurst(st)
    requires Contains(line, NetworkTag)
    requires IsCoords(st.coords)
    ensures var r := Step(st, line, alt);
      && (r.Ok? <==> Count(line, ' ') >= 4)
      && (r.Raised? ==> r.exc == IndexError)
      && (r.Ok? ==>
            var toks := Tokens(KeepPrintable(line));
            var row := [Cell(st.coords, Lat), Cell(st.coords, Lon), Cell(st.coords, Fix),
                        toks[1], toks[2], toks[3], toks[4], alt];
            r.value == st.(trace := st.trace + [RowWritten(row), Flushed, Synced]))
  {
    assert Classify(st, line) == Ok(NetworkLine);
  }

  /** After the burst window a GPS line whose token 3 is not empty
      replaces the coords with tokens 1 to 3 and writes nothing; one whose
      token 3 is empty changes nothing; one with fewer than three spaces
      raises IndexError. */
  lemma GpsLineStep(st: State, line: string, alt: string)
    requires !Contains(line, TimeTag) && !Contains(line, KismetTag) && !InBurst(st)
    requires !Contains(line, NetworkTag) && Contains(line, GpsTag)
    ensures var toks := Tokens(line);
      var r := Step(st, line, alt);
      && (|toks| < 4 ==> r == Raised(IndexError))
      && (|toks| >= 4 && toks[3] != "" ==>
            r == Ok(st.(coords := map[Lat := toks[1], Lon := toks[2], Fix := toks[3]])))
      && (|toks| >= 4 && toks[3] == "" ==> r == Ok(st))
  {
    SplitCount(line, ' ');
  }

  // ---------------------------------------------------------------------
  // The loop
  // ---------------------------------------------------------------------

  /** The session over the lines `ins`, from state `st`: the loop body
      applied to each line in turn until one raises.  The file only grows,
      a set start time is kept, and a reachable state stays reachable. */
  function Run(st: State, ins: seq<Input>): (s: Session)
    ensures st.trace <= s.st.trace
    ensures s.Crashed? ==> s.at < |ins|
    ensures st.startTime != 0 ==> s.st.startTime == st.startTime
    ensures WellFormed(st) ==> WellFormed(s.st)
    decreases |ins|
  {
    if |ins| == 0 then Finished(st)
    else
      match Step(st, ins[0].line, ins[0].alt)
      case Raised(e) => Crashed(st, 0, e)
      case Ok(next) => Later(Run(next, ins[1..]), 1)
  }

  /** The same ending, with a crash position counted `n` lines later. */
  function Later(s: Session, n: nat): (s': Session)
    ensures s'.st == s.st && s'.Crashed? == s.Crashed?
    ensures s.Crashed? ==> s'.at == s.at + n && s'.exc == s.exc
  {
    match s
    case Finished(end) => Finished(end)
    case Crashed(end, i, e) => Crashed(end, i + n, e)
  }

  /** Reading `a` and then `b` is reading `a`, and, unless that crashed,
      reading `b` from where `a` left off, with crash positions counted
      from the start of `a`. */
  lemma {:induction false} RunAppend(st: State, a: seq<Input>, b: seq<Input>)
    ensures Run(st, a + b) == (match Run(st, a)
                               case Crashed(_, _, _) => Run(st, a)
                               case Finished(mid) => Later(Run(mid, b), |a|))
    decreases |a|
  {
    if |a| == 0 {
      assert a + b == b;
    } else {
      assert (a + b)[0] == a[0];
      assert (a + b)[1..] == a[1..] + b;
      match Step(st, a[0].line, a[0].alt)
      case Raised(e) =>
      case Ok(next) =>
        RunAppend(next, a[1..], b);
    }
  }

  /** A line that does not raise hands its state on to the rest. */
  lemma RunAfterStep(st: State, first: Input, rest: seq<Input>, next: State)
    requires Step(st, first.line, first.alt) == Ok(next)
    ensures Run(st, [first] + rest) == Later(Run(next, rest), 1)
  {
    assert ([first] + rest)[1..] == rest;
  }

  /** A line that raises ends the session there: the lines after it are
      never read, and the state is the one the earlier lines left. */
  lemma CrashStops(st: State, pre: seq<Input>, bad: Input, rest: seq<Input>)
    requires Run(st, pre).Finished?
    requires Step(Run(st, pre).st, bad.line, bad.alt).Raised?
    ensures Run(st, pre + [bad] + rest)
         == Crashed(Run(st, pre).st, |pre|, Step(Run(st, pre).st, bad.line, bad.alt).exc)
  {
    RunAppend(st, pre, [bad] + rest);
    assert pre + [bad] + rest == pre + ([bad] + rest);
  }

  /** While no TIME line arrives the burst window never closes, so from a
      state inside the window nothing at all changes: no row is written
      and no GPS line is applied. */
  lemma {:induction false} NoTimeNoChange(st: State, ins: seq<Input>)
    requires InBurst(st)
    requires forall i :: 0 <= i < |ins| ==> !Contains(ins[i].line, TimeTag)
    ensures Run(st, ins) == Finished(st)
    decreases |ins|
  {
    if |ins| > 0 {
      if Contains(ins[0].line, KismetTag) {
        QuietStep(st, ins[0].line, ins[0].alt);
      } else {
        BurstStep(st, ins[0].line, ins[0].alt);
      }
      NoTimeNoChange(st, ins[1..]);
    }
  }

  /** The client's loop over a finite input: reads line after line and
      stops at the first uncaught exception.  It computes the session
      `Run` describes, and its state is one the loop can reach. */
  method Ingest(ins: seq<Input>) returns (s: Session)
    ensures s == Run(Start(), ins)
    ensures WellFormed(s.st)
  {
    var st := Start();
    StartState();
    var i := 0;
    while i < |ins|
      invariant 0 <= i <= |ins|
      invariant WellFormed(st)
      invariant Run(Start(), ins) == Later(Run(st, ins[i..]), i)
      decreases |ins| - i
    {
      assert ins[i..][0] == ins[i] && ins[i..][1..] == ins[i + 1..];
      match Step(st, ins[i].line, ins[i].alt)
      case Raised(e) =>
        return Crashed(st, i, e);
      case Ok(next) =>
        st := next;
        i := i + 1;
    }
    assert ins[i..] == [];
    return Finished(st);
  }
}
