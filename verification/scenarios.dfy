/** Concrete lines through the loop: what one step does to a given state
    for a given line.  Lines keep the "\n" the telnet read leaves on them,
    so the last token of a line ends in it. */
module Scenarios {
  import opened Outcomes
  import opened Text
  import opened Sentences
  import opened CsvRecord
  import opened Client

  const Gps: string := "*GPS: 1.0 2.0 ok\n"
  const Network: string := "*NETWORK: aa:bb ap myssid -40\n"
  const ShortNetwork: string := "*NETWORK: aa:bb ap myssid\n"

  // ---------------------------------------------------------------------
  // Facts about the individual lines
  // ---------------------------------------------------------------------

  /** The line the server sends for epoch `n`. */
  function TimeSentence(n: nat): string {
    TimeTag + ShowNat(n) + "\n"
  }

  lemma TimeSentenceTagged(n: nat)
    ensures Contains(TimeSentence(n), TimeTag)
  {
    ContainsAt(TimeSentence(n), TimeTag, 0);
  }

  lemma TimeSentenceTokens(n: nat)
    ensures Tokens(TimeSentence(n)) == ["*TIME:", ShowNat(n) + "\n"]
  {
    var e := ShowNat(n) + "\n";
    forall i | 0 <= i < |e|
      ensures e[i] != ' '
    {
      if i < |ShowNat(n)| {
        assert e[i] == ShowNat(n)[i];
      }
    }
    assert TimeSentence(n) == "*TIME:" + [' '] + e;
    SplitUnique(TimeSentence(n), ' ', ["*TIME:", e]);
  }

  lemma TimeTokenValue(n: nat)
    ensures ParseInt(ShowNat(n) + "\n") == Some(n)
  {
    var t := ShowNat(n) + "\n";
    assert t == "" + ShowInt(n) + "\n";
    assert AllSpace("\n") by {
      assert "\n"[0] == '\n';
    }
    ParseShowInt(n, "", "\n");
  }

  lemma GpsNotTime() ensures !Contains(Gps, TimeTag) { MissingChar(Gps, TimeTag, 'I'); }
  lemma GpsNotKismet() ensures !Contains(Gps, KismetTag) { MissingChar(Gps, KismetTag, 'K'); }
  lemma GpsNotNetwork() ensures !Contains(Gps, NetworkTag) { MissingChar(Gps, NetworkTag, 'N'); }
  lemma GpsIsGps() ensures Contains(Gps, GpsTag) { ContainsAt(Gps, GpsTag, 0); }

  lemma GpsTokens()
    ensures Tokens(Gps) == ["*GPS:", "1.0", "2.0", "ok\n"]
  {
    SplitUnique(Gps, ' ', ["*GPS:", "1.0", "2.0", "ok\n"]);
  }

  lemma NetworkNotTime() ensures !Contains(Network, TimeTag) { MissingChar(Network, TimeTag, 'I'); }
  lemma NetworkNotKismet() ensures !Contains(Network, KismetTag) { MissingChar(Network, KismetTag, 'I'); }
  lemma ShortNotTime() ensures !Contains(ShortNetwork, TimeTag) { MissingChar(ShortNetwork, TimeTag, 'I'); }
  lemma ShortNotKismet() ensures !Contains(ShortNetwork, KismetTag) { MissingChar(ShortNetwork, KismetTag, 'I'); }
  lemma ShortIsNetwork() ensures Contains(ShortNetwork, NetworkTag) { ContainsAt(ShortNetwork, NetworkTag, 0); }

  lemma ShortNetworkCount()
    ensures Count(ShortNetwork, ' ') == 3
  {
    SplitUnique(ShortNetwork, ' ', ["*NETWORK:", "aa:bb", "ap", "myssid\n"]);
    SplitCount(ShortNetwork, ' ');
  }

  // ---------------------------------------------------------------------
  // Single steps
  // ---------------------------------------------------------------------

  /** The state after the first TIME line, for epoch `n`: the window is open. */
  function Started(n: nat): State { State(n, n, map[], Start().trace) }

  /** The state at epoch `m` of a session started at epoch `n`. */
  function Running(n: nat, m: nat): State { State(n, m, map[], Start().trace) }

  /** The coords the GPS line carries. */
  function GpsFix(): map<Field, string> { map[Lat := "1.0", Lon := "2.0", Fix := "ok\n"] }

  /** The first nonzero TIME line starts the session clock. */
  lemma FirstTime(n: nat, a: string)
    requires n != 0
    ensures Step(Start(), TimeSentence(n), a) == Ok(Started(n))
  {
    TimeSentenceTagged(n);
    TimeSentenceTokens(n);
    TimeTokenValue(n);
    TimeLineStep(Start(), TimeSentence(n), a);
  }

  /** A later TIME line moves the clock and keeps the start time, whether
      or not it runs backwards. */
  lemma LaterTime(n: nat, m: nat, a: string)
    requires n != 0
    ensures Step(Started(n), TimeSentence(m), a) == Ok(Running(n, m))
  {
    TimeSentenceTagged(m);
    TimeSentenceTokens(m);
    TimeTokenValue(m);
    TimeLineStep(Started(n), TimeSentence(m), a);
  }

  /** A TIME line for epoch 0 leaves the start time unset, so the window
      stays open. */
  lemma ZeroTime(a: string)
    ensures Step(Start(), TimeSentence(0), a) == Ok(Start())
  {
    TimeSentenceTagged(0);
    TimeSentenceTokens(0);
    TimeTokenValue(0);
    TimeLineStep(Start(), TimeSentence(0), a);
  }

  /** Inside the window a GPS line is dropped: the coords stay empty. */
  lemma GpsInWindow(n: nat, a: string)
    ensures Step(Started(n), Gps, a) == Ok(Started(n))
  {
    GpsNotTime();
    GpsNotKismet();
    BurstStep(Started(n), Gps, a);
  }

  /** Inside the window a NETWORK line writes nothing. */
  lemma NetworkInWindow(n: nat, a: string)
    ensures Step(Started(n), Network, a) == Ok(Started(n))
  {
    NetworkNotTime();
    NetworkNotKismet();
    BurstStep(Started(n), Network, a);
  }

  /** After the window the GPS line's tokens 1 to 3 become the coords;
      the fix token keeps the line's "\n". */
  lemma GpsAfterWindow(n: nat, m: nat, a: string)
    requires m - n >= BurstWindow
    ensures Step(Running(n, m), Gps, a) == Ok(Running(n, m).(coords := GpsFix()))
  {
    GpsNotTime();
    GpsNotKismet();
    GpsNotNetwork();
    GpsIsGps();
    GpsTokens();
    GpsLineStep(Running(n, m), Gps, a);
  }

  /** After the window a NETWORK line missing its rssi is not skipped:
      it raises IndexError, which ends the session. */
  lemma ShortNetworkAfterWindow(n: nat, m: nat, a: string)
    requires m - n >= BurstWindow
    ensures Step(Running(n, m), ShortNetwork, a) == Raised(IndexError)
  {
    ShortNotTime();
    ShortNotKismet();
    ShortIsNetwork();
    ShortNetworkCount();
    NetworkLineStep(Running(n, m), ShortNetwork, a);
  }

  // ---------------------------------------------------------------------
  // Sessions
  // ---------------------------------------------------------------------

  /** A session whose only TIME line is its first: the window never
      closes, so whatever follows (GPS and NETWORK lines included) leaves
      the file holding just the header and the coords empty. */
  lemma BurstSession(n: nat, a: string, rest: seq<Input>)
    requires n != 0
    requires forall i :: 0 <= i < |rest| ==> !Contains(rest[i].line, TimeTag)
    ensures Run(Start(), [Input(TimeSentence(n), a)] + rest) == Finished(Started(n))
  {
    var t := Input(TimeSentence(n), a);
    FirstTime(n, a);
    NoTimeNoChange(Started(n), rest);
    RunAfterStep(Start(), t, rest, Started(n));
  }

  /** Two TIME lines, whatever their epochs: the clock is at the second,
      the start time at the first, and nothing has been written.  The
      window is closed exactly when `m - n >= BurstWindow`, which the
      sessions below require. */
  lemma ClosedWindowSession(n: nat, m: nat, a1: string, a2: string)
    requires n != 0
    ensures Run(Start(), [Input(TimeSentence(n), a1), Input(TimeSentence(m), a2)]) == Finished(Running(n, m))
  {
    var t1 := Input(TimeSentence(n), a1);
    var t2 := Input(TimeSentence(m), a2);
    FirstTime(n, a1);
    LaterTime(n, m, a2);
    RunAppend(Start(), [t1], [t2]);
    RunAppend(Started(n), [t2], []);
    assert [t2] + [] == [t2];
    assert [t1] + [t2] == [t1, t2];
  }

  /** Once the window has closed, a NETWORK line with fewer than four
      spaces ends the session at that line: nothing after it is read. */
  lemma CrashSession(n: nat, m: nat, a1: string, a2: string, bad: Input, rest: seq<Input>)
    requires n != 0 && m - n >= BurstWindow
    requires !Contains(bad.line, TimeTag) && !Contains(bad.line, KismetTag) && Contains(bad.line, NetworkTag)
    requires Count(bad.line, ' ') < 4
    ensures Run(Start(), [Input(TimeSentence(n), a1), Input(TimeSentence(m), a2)] + [bad] + rest)
         == Crashed(Running(n, m), 2, IndexError)
  {
    ClosedWindowSession(n, m, a1, a2);
    NetworkLineStep(Running(n, m), bad.line, bad.alt);
    CrashStops(Start(), [Input(TimeSentence(n), a1), Input(TimeSentence(m), a2)], bad, rest);
  }

  /** After the window, the GPS line sets the coords and writes nothing. */
  lemma FixSession(n: nat, m: nat, a1: string, a2: string, a3: string)
    requires n != 0 && m - n >= BurstWindow
    ensures Run(Start(), [Input(TimeSentence(n), a1), Input(TimeSentence(m), a2)] + [Input(Gps, a3)])
         == Finished(Running(n, m).(coords := GpsFix()))
  {
    var times := [Input(TimeSentence(n), a1), Input(TimeSentence(m), a2)];
    ClosedWindowSession(n, m, a1, a2);
    GpsAfterWindow(n, m, a3);
    RunAppend(Start(), times, [Input(Gps, a3)]);
    RunAppend(Running(n, m), [Input(Gps, a3)], []);
    assert [Input(Gps, a3)] + [] == [Input(Gps, a3)];
  }

  lemma GpsFixCells()
    ensures Cell(GpsFix(), Lat) == "1.0" && Cell(GpsFix(), Lon) == "2.0" && Cell(GpsFix(), Fix) == "ok\n"
  {
  }

  /** After the window, the GPS line and then any well-formed NETWORK
      line: exactly one row, holding the GPS fix, tokens 1 to 4 of the
      filtered NETWORK line and the altitude read for it. */
  lemma RecordSession(n: nat, m: nat, a1: string, a2: string, a3: string, net: Input)
    requires n != 0 && m - n >= BurstWindow
    requires !Contains(net.line, TimeTag) && !Contains(net.line, KismetTag) && Contains(net.line, NetworkTag)
    requires |Tokens(KeepPrintable(net.line))| > 4
    ensures var toks := Tokens(KeepPrintable(net.line));
      var row := ["1.0", "2.0", "ok\n", toks[1], toks[2], toks[3], toks[4], net.alt];
      Run(Start(), [Input(TimeSentence(n), a1), Input(TimeSentence(m), a2)] + [Input(Gps, a3)] + [net])
      == Finished(State(n, m, GpsFix(), Start().trace + [RowWritten(row), Flushed, Synced]))
  {
    var before := [Input(TimeSentence(n), a1), Input(TimeSentence(m), a2)] + [Input(Gps, a3)];
    var fixed := Running(n, m).(coords := GpsFix());
    FixSession(n, m, a1, a2, a3);
    SplitCount(KeepPrintable(net.line), ' ');
    FilterKeepsSpaces(net.line);
    NetworkLineStep(fixed, net.line, net.alt);
    GpsFixCells();
    RunAppend(Start(), before, [net]);
    RunAppend(fixed, [net], []);
    assert [net] + [] == [net];
  }
}
