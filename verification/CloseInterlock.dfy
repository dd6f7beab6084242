/**
 * conn.go: the lock-free interlock between Write and Close. Each load, compare-and-swap and add on
 * activeCall is one step, and the steps of any number of callers interleave arbitrarily.
 */
module CloseInterlock {

  datatype Op = WriteCall | CloseCall

  /** Where a caller is. x is the value of activeCall it loaded. */
  datatype Pc =
    | Start
    | Loaded(x: int)
    | Writing                        // between the successful swap and the deferred add
    | Closing(x: int)                // after the successful swap of Close
    | Checked(complete: bool)        // Close saw no writer and has loaded isHandshakeComplete
    | Refused                        // returned net.ErrClosed
    | WriteDone
    | CloseDone(notified: bool)      // notified: close_notify was attempted

  datatype Caller = Caller(op: Op, pc: Pc)

  /** Close reads isHandshakeComplete, which handshakes set and renegotiations clear at any time. */
  datatype State = State(activeCall: int, handshakeComplete: bool, callers: seq<Caller>, winners: seq<nat>)

  /** Something happens: a caller takes its next step, or a handshake elsewhere stores the flag. */
  datatype Action = Call(i: nat) | Store(complete: bool)

  predicate Odd(x: int) {
    x % 2 == 1
  }

  /** `x | 1`. */
  function SetLowBit(x: int): int {
    if Odd(x) then x else x + 1
  }

  function Move(s: State, i: nat, pc: Pc): State
    requires i < |s.callers|
  {
    s.(callers := s.callers[i := s.callers[i].(pc := pc)])
  }

  predicate Returned(pc: Pc) {
    pc.Refused? || pc.WriteDone? || pc.CloseDone?
  }

  predicate Enabled(s: State, a: Action) {
    a.Call? ==> a.i < |s.callers| && !Returned(s.callers[a.i].pc)
  }

  /** The next atomic step of caller i. */
  function StepOf(s: State, i: nat): State
    requires Enabled(s, Call(i))
  {
    var Caller(op, pc) := s.callers[i];
    match pc
    case Start =>
      if Odd(s.activeCall) then Move(s, i, Refused) else Move(s, i, Loaded(s.activeCall))
    case Loaded(x) =>
      if s.activeCall != x then Move(s, i, Start)
      else if op.WriteCall? then Move(s.(activeCall := x + 2), i, Writing)
      else Move(s.(activeCall := SetLowBit(x), winners := s.winners + [i]), i, Closing(x))
    case Writing => Move(s.(activeCall := s.activeCall - 2), i, WriteDone)
    case Closing(x) => Move(s, i, if x != 0 then CloseDone(false) else Checked(s.handshakeComplete))
    case Checked(complete) => Move(s, i, CloseDone(complete))
    case _ => s
  }

  function Step(s: State, a: Action): State
    requires Enabled(s, a)
  {
    match a
    case Call(i) => StepOf(s, i)
    case Store(complete) => s.(handshakeComplete := complete)
  }

  predicate Initial(s: State) {
    s.activeCall == 0 && s.winners == [] && forall c <- s.callers :: c.pc == Start
  }

  ghost predicate Run(ss: seq<State>, who: seq<Action>) {
    && |ss| == |who| + 1 && Initial(ss[0])
    && forall k :: 0 <= k < |who| ==> StepsTo(ss[k], who[k], ss[k + 1])
  }

  ghost predicate StepsTo(s: State, a: Action, t: State) {
    Enabled(s, a) && t == Step(s, a)
  }

  /** In-flight writers. */
  function Writers(cs: seq<Caller>): nat {
    if cs == [] then 0 else (if cs[0].pc.Writing? then 1 else 0) + Writers(cs[1..])
  }

  predicate HasWon(pc: Pc) {
    pc.Closing? || pc.Checked? || pc.CloseDone?
  }

  ghost predicate Inv(s: State) {
    && s.activeCall == 2 * Writers(s.callers) + |s.winners|
    && |s.winners| <= 1
    && (forall i :: 0 <= i < |s.callers| ==> (HasWon(s.callers[i].pc) <==> i in s.winners))
    && (forall i :: 0 <= i < |s.callers| ==> (s.callers[i].pc.Refused? ==> s.winners != []))
    && (forall i :: 0 <= i < |s.callers| ==> (s.callers[i].pc.Loaded? ==> !Odd(s.callers[i].pc.x) && s.callers[i].pc.x >= 0))
    && (forall i :: 0 <= i < |s.callers| ==> (s.callers[i].pc.Writing? || s.callers[i].pc.WriteDone? ==> s.callers[i].op.WriteCall?))
  }

  lemma {:induction false} WritersUpdate(cs: seq<Caller>, i: nat, c: Caller)
    requires i < |cs|
    ensures Writers(cs[i := c]) == Writers(cs) + (if c.pc.Writing? then 1 else 0) - (if cs[i].pc.Writing? then 1 else 0)
  {
    if i == 0 {
      assert cs[i := c][1..] == cs[1..];
    } else {
      assert cs[i := c][1..] == cs[1..][i - 1 := c];
      WritersUpdate(cs[1..], i - 1, c);
    }
  }

  lemma {:induction false} NoWriters(cs: seq<Caller>)
    requires forall c <- cs :: c.pc == Start
    ensures Writers(cs) == 0
  {
    if cs != [] {
      NoWriters(cs[1..]);
    }
  }

  lemma SwapKeeps(s: State, i: nat)
    requires Inv(s) && Enabled(s, Call(i)) && s.callers[i].pc.Loaded?
    ensures Inv(StepOf(s, i))
  {
    var t := StepOf(s, i);
    WritersUpdate(s.callers, i, t.callers[i]);
    assert t.callers == s.callers[i := t.callers[i]];
  }

  lemma LoadKeeps(s: State, i: nat)
    requires Inv(s) && Enabled(s, Call(i)) && s.callers[i].pc.Start?
    ensures Inv(StepOf(s, i))
  {
    var t := StepOf(s, i);
    WritersUpdate(s.callers, i, t.callers[i]);
    assert t.callers == s.callers[i := t.callers[i]];
  }

  lemma CallKeeps(s: State, i: nat)
    requires Inv(s) && Enabled(s, Call(i))
    ensures Inv(StepOf(s, i))
  {
    if s.callers[i].pc.Loaded? {
      SwapKeeps(s, i);
    } else if s.callers[i].pc.Start? {
      LoadKeeps(s, i);
    } else {
      var t := StepOf(s, i);
      WritersUpdate(s.callers, i, t.callers[i]);
      assert t.callers == s.callers[i := t.callers[i]];
    }
  }

  lemma StepKeeps(s: State, a: Action)
    requires Inv(s) && Enabled(s, a)
    ensures Inv(Step(s, a))
  {
    if a.Call? {
      CallKeeps(s, a.i);
    }
  }

  /** In every reachable state the counter is twice the writers in flight plus the closed bit. */
  lemma {:induction false} ReachableInv(ss: seq<State>, who: seq<Action>, n: nat)
    requires Run(ss, who) && n <= |who|
    ensures Inv(ss[n])
  {
    if n == 0 {
      NoWriters(ss[0].callers);
    } else {
      ReachableInv(ss, who, n - 1);
      var m := n - 1;
      assert StepsTo(ss[m], who[m], ss[m + 1]);
      StepKeeps(ss[m], who[m]);
    }
  }

  lemma {:induction false} WritersBound(cs: seq<Caller>)
    ensures Writers(cs) <= |cs|
  {
    if cs != [] {
      WritersBound(cs[1..]);
    }
  }

  /** With fewer than 2^30 callers the 32-bit counter never overflows. */
  lemma CounterFitsInt32(ss: seq<State>, who: seq<Action>, n: nat)
    requires Run(ss, who) && n <= |who| && |ss[n].callers| < 0x4000_0000
    ensures 0 <= ss[n].activeCall < 0x8000_0000
  {
    ReachableInv(ss, who, n);
    WritersBound(ss[n].callers);
  }

  lemma {:induction false} CallersKept(ss: seq<State>, who: seq<Action>, m: nat, n: nat)
    requires Run(ss, who) && m <= n <= |who|
    ensures |ss[n].callers| == |ss[m].callers| && ss[m].winners <= ss[n].winners
    ensures forall i :: 0 <= i < |ss[m].callers| ==> ss[n].callers[i].op == ss[m].callers[i].op
  {
    if n > m {
      CallersKept(ss, who, m, n - 1);
      var k := n - 1;
      assert StepsTo(ss[k], who[k], ss[k + 1]);
    }
  }

  /** The first winner stays the only one. */
  lemma WinnerStays(ss: seq<State>, who: seq<Action>, m: nat, n: nat)
    requires Run(ss, who) && m <= n <= |who| && ss[m].winners != []
    ensures ss[n].winners == ss[m].winners && |ss[n].winners| == 1
  {
    CallersKept(ss, who, m, n);
    ReachableInv(ss, who, n);
  }

  /**
   * Exactly one Close wins: as soon as any Close has returned, whether it won or was refused, there is
   * one winner, it is the same one from then on, it is a Close, and every other Close that returns is refused.
   */
  lemma OneCloseWins(ss: seq<State>, who: seq<Action>, m: nat, n: nat, i: nat, j: nat)
    requires Run(ss, who) && m <= n <= |who| && i < |ss[m].callers| && j < |ss[m].callers|
    requires ss[m].callers[i].op.CloseCall? && Returned(ss[m].callers[i].pc)
    ensures |ss[m].winners| == 1 && ss[n].winners == ss[m].winners
    ensures j < |ss[n].callers|
    ensures ss[n].callers[j].op.CloseCall? && Returned(ss[n].callers[j].pc) ==> (ss[n].callers[j].pc.Refused? <==> j != ss[m].winners[0])
    ensures ss[m].winners[0] < |ss[m].callers| && ss[m].callers[ss[m].winners[0]].op.CloseCall?
  {
    ReachableInv(ss, who, m);
    ReachableInv(ss, who, n);
    WinnersAreCloses(ss, who, m);
    WinnerStays(ss, who, m, n);
    CallersKept(ss, who, m, n);
  }

  lemma {:induction false} WinnersAreCloses(ss: seq<State>, who: seq<Action>, n: nat)
    requires Run(ss, who) && n <= |who|
    ensures forall k :: 0 <= k < |ss[n].winners| ==>
              ss[n].winners[k] < |ss[n].callers| && ss[n].callers[ss[n].winners[k]].op.CloseCall?
  {
    if n > 0 {
      var m := n - 1;
      WinnersAreCloses(ss, who, m);
      assert StepsTo(ss[m], who[m], ss[m + 1]);
    }
  }

  /** Once a Close has won, no Write gets in any more. */
  lemma {:induction false} NoWriteAfterClose(ss: seq<State>, who: seq<Action>, m: nat, n: nat, i: nat)
    requires Run(ss, who) && m <= n <= |who| && i < |ss[m].callers|
    requires ss[m].winners != []
    ensures i < |ss[n].callers| && (ss[n].callers[i].pc.Writing? ==> ss[m].callers[i].pc.Writing?)
  {
    if n > m {
      var k := n - 1;
      NoWriteAfterClose(ss, who, m, k, i);
      WinnerStays(ss, who, m, k);
      ReachableInv(ss, who, k);
      assert StepsTo(ss[k], who[k], ss[k + 1]);
      if who[k] == Call(i) {
        StaleLoad(ss[k], i);
      }
    }
  }

  /** Once closed, a caller holding an earlier even value cannot swap. */
  lemma StaleLoad(s: State, i: nat)
    requires Inv(s) && s.winners != [] && Enabled(s, Call(i))
    ensures StepOf(s, i).callers[i].pc.Writing? ==> s.callers[i].pc.Writing?
  {
    assert Odd(s.activeCall);
  }

  /** The winner's loaded value tells whether a writer was in flight at its swap. */
  lemma SwapSeesWriters(s: State, i: nat)
    requires Inv(s) && Enabled(s, Call(i)) && !HasWon(s.callers[i].pc) && HasWon(StepOf(s, i).callers[i].pc)
    ensures var pc := StepOf(s, i).callers[i].pc; pc.Closing? && (pc.x == 0 <==> Writers(s.callers) == 0)
    ensures s.winners == [] && StepOf(s, i).winners == [i]
  {
  }

  /** Looking back from any state in which a Close has won: the step k at which it did, as the first. */
  lemma {:induction false} WonOnce(ss: seq<State>, who: seq<Action>, n: nat, i: nat) returns (k: nat)
    requires Run(ss, who) && n <= |who| && i < |ss[n].callers| && HasWon(ss[n].callers[i].pc)
    ensures k < n && who[k] == Call(i) && ss[k].winners == [] && ss[k + 1].winners == [i]
    ensures i < |ss[k].callers| && i < |ss[k + 1].callers|
    ensures ss[k + 1].callers[i].pc.Closing? && (ss[k + 1].callers[i].pc.x == 0 <==> Writers(ss[k].callers) == 0)
    ensures ss[n].callers[i].pc.Closing? ==> ss[n].callers[i].pc == ss[k + 1].callers[i].pc
    ensures ss[n].callers[i].pc.Checked? ==> Writers(ss[k].callers) == 0
    ensures ss[n].callers[i].pc == CloseDone(true) ==> Writers(ss[k].callers) == 0
  {
    assert n > 0;
    var m := n - 1;
    assert StepsTo(ss[m], who[m], ss[m + 1]);
    if HasWon(ss[m].callers[i].pc) {
      k := WonOnce(ss, who, m, i);
    } else {
      ReachableInv(ss, who, m);
      k := m;
      SwapSeesWriters(ss[m], i);
    }
  }

  /** And from any later state of an idle winner: the step l at which it loaded the flag. */
  lemma {:induction false} LoadedOnce(ss: seq<State>, who: seq<Action>, k: nat, n: nat, i: nat) returns (l: nat)
    requires Run(ss, who) && k < n <= |who| && i < |ss[k + 1].callers| && i < |ss[n].callers|
    requires ss[k + 1].callers[i].pc == Closing(0) && (ss[n].callers[i].pc.Checked? || ss[n].callers[i].pc.CloseDone?)
    ensures k < l < n && who[l] == Call(i) && i < |ss[l].callers| && ss[l].callers[i].pc == Closing(0)
    ensures ss[n].callers[i].pc == (if ss[n].callers[i].pc.Checked? then Checked(ss[l].handshakeComplete) else CloseDone(ss[l].handshakeComplete))
    decreases n
  {
    assert n > k + 1;
    var m := n - 1;
    assert StepsTo(ss[m], who[m], ss[m + 1]);
    CallersKept(ss, who, m, n);
    StaysWon(ss, who, k + 1, m, i);
    if ss[m].callers[i].pc.Closing? {
      l := m;
    } else {
      l := LoadedOnce(ss, who, k, m, i);
    }
  }

  lemma {:induction false} StaysWon(ss: seq<State>, who: seq<Action>, k: nat, n: nat, i: nat)
    requires Run(ss, who) && k <= n <= |who| && i < |ss[k].callers| && HasWon(ss[k].callers[i].pc)
    ensures i < |ss[n].callers| && HasWon(ss[n].callers[i].pc)
    ensures ss[n].callers[i].pc.Closing? ==> ss[n].callers[i].pc == ss[k].callers[i].pc
    decreases n
  {
    if k < n {
      StaysWon(ss, who, k, n - 1, i);
      var m := n - 1;
      assert StepsTo(ss[m], who[m], ss[m + 1]);
    }
  }

  /**
   * A Close that has returned without being refused won at one step k, as the first to win; it attempted
   * close_notify exactly if no Write was in flight at k and the handshake was complete when it loaded the
   * flag, at a later step l. With a Write in flight it does not look at the flag at all.
   */
  lemma NotifiedExactlyIfIdle(ss: seq<State>, who: seq<Action>, n: nat, i: nat) returns (k: nat, l: nat)
    requires Run(ss, who) && n <= |who| && i < |ss[n].callers| && ss[n].callers[i].pc.CloseDone?
    ensures k < n && who[k] == Call(i) && ss[k].winners == [] && ss[k + 1].winners == [i]
    ensures Writers(ss[k].callers) == 0 ==> k < l < n && who[l] == Call(i)
    ensures l <= |who|
    ensures ss[n].callers[i].pc.notified <==> Writers(ss[k].callers) == 0 && ss[l].handshakeComplete
  {
    k := WonOnce(ss, who, n, i);
    l := k;
    if Writers(ss[k].callers) == 0 {
      l := LoadedOnce(ss, who, k, n, i);
    }
  }
}
