/**
 * The signaling of a peer-to-peer session: offers, answers and trickled ICE candidates, which may come before the
 * remote description they need. The outcomes of the calls into the WebRTC library come with the messages.
 */
module Signaling {
  import opened Bytes

  type Candidate = string

  datatype Why = RemoteDescription | CreateAnswer | LocalDescription | SendAnswer | BadCandidate | AddCandidate
    | PeerLeft | RelayError | TransportClosed

  datatype Message =
    | Offer(remoteOk: bool, createOk: bool, localOk: bool, sendOk: bool)
    | Answer(remoteOk: bool)
    | Ice(text: string, decoded: Option<Candidate>, addOk: bool) // decoded: what the text parses to, if it does
    | Bye                                                        // peer-left or bye
    | Error
    | Other

  /** One call of AddICECandidate, and whether a remote description was in place. */
  datatype Call = Call(candidate: Candidate, described: bool)

  datatype State = State(described: bool, remoteSet: bool, pending: seq<Candidate>, calls: seq<Call>)

  function CallsFor(cs: seq<Candidate>, described: bool): seq<Call> {
    if cs == [] then [] else [Call(cs[0], described)] + CallsFor(cs[1..], described)
  }

  function Flushed(st: State): State {
    st.(remoteSet := true, pending := [], calls := st.calls + CallsFor(st.pending, st.described))
  }

  /** The state after a message and the error it ends the session with, if any. */
  function Handled(st: State, m: Message): (State, Option<Why>) {
    match m
    case Offer(remoteOk, createOk, localOk, sendOk) =>
      if !remoteOk then (st, Some(RemoteDescription))
      else
        (Flushed(st.(described := true)),
         if !createOk then Some(CreateAnswer) else if !localOk then Some(LocalDescription)
         else if !sendOk then Some(SendAnswer) else None)
    case Answer(remoteOk) =>
      if !remoteOk then (st, Some(RemoteDescription)) else (Flushed(st.(described := true)), None)
    case Ice(text, decoded, addOk) =>
      if text == "" then (st, None)
      else if decoded.None? then (st, Some(BadCandidate))
      else if !st.remoteSet then (st.(pending := st.pending + [decoded.value]), None)
      else (st.(calls := st.calls + [Call(decoded.value, st.described)]), if addOk then None else Some(AddCandidate))
    case Bye => (st, Some(PeerLeft))
    case Error => (st, Some(RelayError))
    case Other => (st, None)
  }

  /**
   * runSignaling: the messages up to the first fatal one, and the failure to record. Running out of them means that the
   * transport has failed, which is none when the session is over anyway.
   */
  function Dispatched(st: State, ms: seq<Message>, over: bool): (State, Option<Why>)
    decreases |ms|
  {
    if ms == [] then (st, if over then None else Some(TransportClosed))
    else
      var (st', err) := Handled(st, ms[0]);
      if err.Some? then (st', err) else Dispatched(st', ms[1..], over)
  }

  lemma {:induction false} CallsForAppend(cs: seq<Candidate>, c: Candidate, described: bool)
    ensures CallsFor(cs + [c], described) == CallsFor(cs, described) + [Call(c, described)]
  {
    if cs == [] {
      assert cs + [c] == [c] && [c][1..] == [];
    } else {
      assert (cs + [c])[1..] == cs[1..] + [c];
      CallsForAppend(cs[1..], c, described);
    }
  }

  // ---- the code ----

  class Session {
    var described: bool // the library has the remote description
    var remoteSet: bool
    var pending: seq<Candidate>
    var calls: seq<Call>
    var failErr: Option<Why>

    constructor ()
      ensures Current() == State(false, false, [], []) && failErr == None
    {
      described, remoteSet, pending, calls, failErr := false, false, [], [], None;
    }

    function Current(): State
      reads this
    {
      State(described, remoteSet, pending, calls)
    }

    method AddICECandidate(c: Candidate)
      modifies this`calls
      ensures calls == old(calls) + [Call(c, described)]
    {
      calls := calls + [Call(c, described)];
    }

    method FlushPendingICE()
      modifies this`remoteSet, this`pending, this`calls
      ensures Current() == Flushed(old(Current()))
    {
      remoteSet := true;
      var cs := pending;
      pending := [];
      var i := 0;
      while i < |cs|
        invariant 0 <= i <= |cs|
        invariant remoteSet && pending == [] && described == old(described) && cs == old(pending)
        invariant calls == old(calls) + CallsFor(cs[..i], described)
      {
        CallsForAppend(cs[..i], cs[i], described);
        assert cs[..i + 1] == cs[..i] + [cs[i]];
        AddICECandidate(cs[i]);
        i := i + 1;
      }
      assert cs[..i] == cs;
    }

    method HandleOffer(m: Message) returns (err: Option<Why>)
      requires m.Offer?
      modifies this`described, this`remoteSet, this`pending, this`calls
      ensures (Current(), err) == Handled(old(Current()), m)
    {
      hide CallsFor;
      if !m.remoteOk { return Some(RemoteDescription); }
      described := true;
      FlushPendingICE();
      if !m.createOk { return Some(CreateAnswer); }
      if !m.localOk { return Some(LocalDescription); }
      if !m.sendOk { return Some(SendAnswer); }
      return None;
    }

    method HandleAnswer(m: Message) returns (err: Option<Why>)
      requires m.Answer?
      modifies this`described, this`remoteSet, this`pending, this`calls
      ensures (Current(), err) == Handled(old(Current()), m)
    {
      hide CallsFor;
      if !m.remoteOk { return Some(RemoteDescription); }
      described := true;
      FlushPendingICE();
      return None;
    }

    method HandleICE(m: Message) returns (err: Option<Why>)
      requires m.Ice?
      modifies this`pending, this`calls
      ensures (Current(), err) == Handled(old(Current()), m)
    {
      if m.text == "" { return None; }
      if m.decoded.None? { return Some(BadCandidate); }
      if !remoteSet {
        pending := pending + [m.decoded.value];
        return None;
      }
      AddICECandidate(m.decoded.value);
      return if m.addOk then None else Some(AddCandidate);
    }

    /** Only the first failure is recorded. */
    method Fail(why: Why)
      modifies this`failErr
      ensures failErr == if old(failErr).None? then Some(why) else old(failErr)
    {
      if failErr.None? { failErr := Some(why); }
    }

    method RunSignaling(ms: seq<Message>, over: bool)
      modifies this
      ensures Current() == Dispatched(old(Current()), ms, over).0
      ensures failErr == if old(failErr).None? then Dispatched(old(Current()), ms, over).1 else old(failErr)
    {
      var i := 0;
      while i < |ms|
        invariant 0 <= i <= |ms| && failErr == old(failErr)
        invariant Dispatched(Current(), ms[i..], over) == Dispatched(old(Current()), ms, over)
        decreases |ms| - i
      {
        hide Handled, Flushed, CallsFor;
        assert ms[i..][1..] == ms[i + 1..];
        var err := None;
        match ms[i] {
          case Offer(_, _, _, _) => err := HandleOffer(ms[i]);
          case Answer(_) => err := HandleAnswer(ms[i]);
          case Ice(_, _, _) => err := HandleICE(ms[i]);
          case _ => err := HandleOther(ms[i]);
        }
        if err.Some? {
          Fail(err.value);
          return;
        }
        i := i + 1;
      }
      if !over { Fail(TransportClosed); }
    }

    method HandleOther(m: Message) returns (err: Option<Why>)
      requires m.Bye? || m.Error? || m.Other?
      ensures (Current(), err) == Handled(Current(), m)
    {
      return match m case Bye => Some(PeerLeft) case Error => Some(RelayError) case _ => None;
    }
  }

  // ---- every candidate once, in order, and not too early ----

  /** The candidates of the messages that are handled, the last one's included even if handing it over fails. */
  function Candidates(ms: seq<Message>): seq<Candidate>
    decreases |ms|
  {
    if ms == [] then []
    else if ms[0].Ice? && ms[0].text != "" && ms[0].decoded.Some? then [ms[0].decoded.value] + Candidates(ms[1..])
    else Candidates(ms[1..])
  }

  /** How many messages runSignaling takes: those before the first fatal one, and that one. */
  function Taken(st: State, ms: seq<Message>): (n: nat)
    ensures n <= |ms|
    decreases |ms|
  {
    if ms == [] then 0
    else if Handled(st, ms[0]).1.Some? then 1
    else 1 + Taken(Handled(st, ms[0]).0, ms[1..])
  }

  /** Nothing pending once a description is set, no call before. */
  predicate Orderly(st: State) {
    st.remoteSet == st.described && if st.remoteSet then st.pending == [] else st.calls == []
  }

  lemma HandledOrderly(st: State, m: Message)
    requires Orderly(st)
    ensures Orderly(Handled(st, m).0)
  {
  }

  /** What has been handed over, in order, and then what is pending. */
  function Seen(st: State): seq<Call> { st.calls + CallsFor(st.pending, true) }

  lemma HandledSees(st: State, m: Message)
    requires Orderly(st)
    ensures Seen(Handled(st, m).0) == Seen(st) + CallsFor(Candidates([m]), true)
  {
    assert Candidates([m]) == (if m.Ice? && m.text != "" && m.decoded.Some? then [m.decoded.value] else []) by {
      assert [m][1..] == [];
    }
    if m.Ice? && m.text != "" && m.decoded.Some? {
      CallsForAppend(st.pending, m.decoded.value, true);
      CallsForAppend([], m.decoded.value, true);
      assert [] + [m.decoded.value] == [m.decoded.value];
      hide CallsFor, Candidates;
      assert CallsFor([], true) == [] by { CallsForNothing(); }
      if st.remoteSet {
        assert (st.calls + [Call(m.decoded.value, true)]) + [] == (st.calls + []) + [Call(m.decoded.value, true)];
      }
    } else {
      CallsForNothing();
      hide CallsFor, Candidates;
      assert Seen(st) + [] == Seen(st);
      assert (st.calls + CallsFor(st.pending, true)) + [] == st.calls + CallsFor(st.pending, true);
    }
  }

  lemma CallsForNothing()
    ensures CallsFor([], true) == []
  {
  }

  lemma {:induction false} CallsForConcat(a: seq<Candidate>, b: seq<Candidate>, described: bool)
    ensures CallsFor(a + b, described) == CallsFor(a, described) + CallsFor(b, described)
  {
    if a == [] {
      assert a + b == b;
    } else {
      assert (a + b)[1..] == a[1..] + b;
      CallsForConcat(a[1..], b, described);
    }
  }

  lemma {:induction false} CandidatesFirst(m: Message, rest: seq<Message>)
    ensures Candidates([m] + rest) == Candidates([m]) + Candidates(rest)
  {
    assert ([m] + rest)[1..] == rest && [m][1..] == [];
  }

  /**
   * For every sequence of messages: each non-empty candidate that is handled is either handed to the library, once and
   * in order of arrival, or still pending after all of those; none is handed over before the remote description is
   * set, and none is left pending after.
   */
  lemma {:induction false} EveryCandidateOnce(st: State, ms: seq<Message>, over: bool)
    requires Orderly(st)
    ensures var end := Dispatched(st, ms, over).0;
      && Orderly(end)
      && Seen(end) == Seen(st) + CallsFor(Candidates(ms[..Taken(st, ms)]), true)
    decreases |ms|
  {
    if ms == [] {
      CallsForNothing();
      assert Seen(st) + [] == Seen(st);
    } else {
      DispatchedStep(st, ms, over);
      HandledOrderly(st, ms[0]);
      HandledSees(st, ms[0]);
      hide Dispatched, Taken, Handled, Orderly, Seen, CallsFor, Candidates;
      var (st', err) := Handled(st, ms[0]);
      if err.Some? {
        assert ms[..1] == [ms[0]];
      } else {
        var n := Taken(st', ms[1..]);
        EveryCandidateOnce(st', ms[1..], over);
        CallsForFirst(ms, n);
        var a, b := CallsFor(Candidates([ms[0]]), true), CallsFor(Candidates(ms[1..][..n]), true);
        Joined(Seen(st), a, b);
      }
    }
  }

  lemma Joined(s: seq<Call>, a: seq<Call>, b: seq<Call>)
    ensures (s + a) + b == s + (a + b)
  {
  }

  lemma DispatchedStep(st: State, ms: seq<Message>, over: bool)
    requires ms != []
    ensures var (st', err) := Handled(st, ms[0]);
      if err.Some? then Dispatched(st, ms, over).0 == st' && Taken(st, ms) == 1
      else Dispatched(st, ms, over) == Dispatched(st', ms[1..], over) && Taken(st, ms) == 1 + Taken(st', ms[1..])
  {
    hide Handled;
  }

  lemma CallsForFirst(ms: seq<Message>, n: nat)
    requires ms != [] && n <= |ms[1..]|
    ensures CallsFor(Candidates(ms[..1 + n]), true)
         == CallsFor(Candidates([ms[0]]), true) + CallsFor(Candidates(ms[1..][..n]), true)
  {
    hide Candidates, CallsFor;
    assert ms[..1 + n] == [ms[0]] + ms[1..][..n];
    CandidatesFirst(ms[0], ms[1..][..n]);
    CallsForConcat(Candidates([ms[0]]), Candidates(ms[1..][..n]), true);
  }

  /** From a new session: what the library was given, and what waits. */
  lemma FreshSession(ms: seq<Message>, over: bool)
    ensures var st := State(false, false, [], []);
      var end, handled := Dispatched(st, ms, over).0, Candidates(ms[..Taken(st, ms)]);
      && (end.described ==> end.calls == CallsFor(handled, true) && end.pending == [])
      && (!end.described ==> end.calls == [] && CallsFor(end.pending, true) == CallsFor(handled, true))
  {
    var st := State(false, false, [], []);
    EveryCandidateOnce(st, ms, over);
    CallsForNothing();
    var end := Dispatched(st, ms, over).0;
    hide Dispatched, CallsFor;
    assert end.calls + [] == end.calls && [] + CallsFor(end.pending, true) == CallsFor(end.pending, true);
  }

  // ---- which message ends a session, and with what ----

  predicate Describes(m: Message) { (m.Offer? || m.Answer?) && m.remoteOk }

  /** A remote description has been set by one of the first n messages. */
  predicate DescribedBy(ms: seq<Message>, n: nat)
    requires n <= |ms|
  {
    exists j :: 0 <= j < n && Describes(ms[j])
  }

  /** Whether a message is fatal: a farewell, an error, a text that does not decode, or a call that fails. */
  predicate Fatal(m: Message, described: bool) {
    match m
    case Offer(remoteOk, createOk, localOk, sendOk) => !(remoteOk && createOk && localOk && sendOk)
    case Answer(remoteOk) => !remoteOk
    case Ice(text, decoded, addOk) => text != "" && (decoded.None? || (described && !addOk))
    case Bye => true
    case Error => true
    case Other => false
  }

  /** The failure a fatal message is recorded as: of several calls, the first that fails. */
  function Blame(m: Message): Why {
    match m
    case Offer(remoteOk, createOk, localOk, _) =>
      if !remoteOk then RemoteDescription else if !createOk then CreateAnswer
      else if !localOk then LocalDescription else SendAnswer
    case Answer(_) => RemoteDescription
    case Ice(_, decoded, _) => if decoded.None? then BadCandidate else AddCandidate
    case Bye => PeerLeft
    case _ => RelayError
  }

  /** n is the first fatal message, or the number of all messages when none is. */
  predicate FirstFatal(described: bool, ms: seq<Message>, n: nat) {
    && n <= |ms|
    && (forall j :: 0 <= j < n ==> !Fatal(ms[j], described || DescribedBy(ms, j)))
    && (n < |ms| ==> Fatal(ms[n], described || DescribedBy(ms, n)))
  }

  lemma DescribedByFirst(ms: seq<Message>, n: nat)
    requires n < |ms|
    ensures DescribedBy(ms, n + 1) <==> Describes(ms[0]) || DescribedBy(ms[1..], n)
  {
    if DescribedBy(ms, n + 1) {
      var j :| 0 <= j < n + 1 && Describes(ms[j]);
      assert j > 0 ==> ms[1..][j - 1] == ms[j];
    }
    if DescribedBy(ms[1..], n) {
      var j :| 0 <= j < n && Describes(ms[1..][j]);
      assert ms[j + 1] == ms[1..][j];
    }
  }

  lemma HandledExactly(st: State, m: Message)
    requires Orderly(st)
    ensures var (st', err) := Handled(st, m);
      && err == (if Fatal(m, st.described) then Some(Blame(m)) else None)
      && (st'.described <==> st.described || Describes(m))
  {
  }

  lemma FirstFatalRest(described: bool, ms: seq<Message>, n: nat)
    requires FirstFatal(described, ms, n) && 0 < n
    ensures FirstFatal(described || Describes(ms[0]), ms[1..], n - 1)
  {
    forall j | 0 <= j < |ms[1..]|
      ensures ms[1..][j] == ms[j + 1] && (DescribedBy(ms, j + 1) <==> Describes(ms[0]) || DescribedBy(ms[1..], j))
    {
      DescribedByFirst(ms, j);
    }
    hide Fatal, DescribedBy, Describes;
  }

  /** The run ends with the first fatal message, and with its failure; without one, with the transport. */
  lemma {:induction false} EndsAtFirstFatal(st: State, ms: seq<Message>, over: bool, n: nat)
    requires Orderly(st) && FirstFatal(st.described, ms, n)
    ensures var (end, why) := Dispatched(st, ms, over);
      && why == (if n < |ms| then Some(Blame(ms[n])) else if over then None else Some(TransportClosed))
      && Taken(st, ms) == (if n < |ms| then n + 1 else n)
      && (end.described <==> st.described || DescribedBy(ms, Taken(st, ms)))
    decreases n
  {
    if ms != [] {
      HandledExactly(st, ms[0]);
      HandledOrderly(st, ms[0]);
      DispatchedStep(st, ms, over);
      DescribedByFirst(ms, 0);
      assert !DescribedBy(ms[1..], 0) && !DescribedBy(ms, 0);
      hide Handled, Orderly, Fatal, Blame, Dispatched, Taken, Describes, DescribedBy;
      if n > 0 {
        FirstFatalRest(st.described, ms, n);
        var st' := Handled(st, ms[0]).0;
        EndsAtFirstFatal(st', ms[1..], over, n - 1);
        DescribedByFirst(ms, Taken(st', ms[1..]));
      }
    }
  }

  lemma {:induction false} SomeFirstFatal(ms: seq<Message>, k: nat) returns (n: nat)
    requires k <= |ms| && forall j :: 0 <= j < k ==> !Fatal(ms[j], DescribedBy(ms, j))
    ensures FirstFatal(false, ms, n)
    decreases |ms| - k
  {
    hide Fatal, DescribedBy;
    if k == |ms| || Fatal(ms[k], DescribedBy(ms, k)) {
      n := k;
    } else {
      n := SomeFirstFatal(ms, k + 1);
    }
  }

  lemma {:induction false} CallsForInjective(a: seq<Candidate>, b: seq<Candidate>, described: bool)
    requires CallsFor(a, described) == CallsFor(b, described)
    ensures a == b
    decreases |a|
  {
    if a != [] && b != [] {
      assert CallsFor(a, described)[0] == Call(a[0], described) && CallsFor(b, described)[0] == Call(b[0], described);
      assert CallsFor(a, described)[1..] == CallsFor(a[1..], described);
      assert CallsFor(b, described)[1..] == CallsFor(b[1..], described);
      CallsForInjective(a[1..], b[1..], described);
      assert a == [a[0]] + a[1..] && b == [b[0]] + b[1..];
    }
  }

  /**
   * A whole session, told by its messages alone. The messages up to the first fatal one are handled, and its failure is
   * the one recorded; without a fatal one all of them are, and the transport's end is the failure, or none if the
   * session is over. All candidates among those messages have been handed over if a description was set, else they
   * wait.
   */
  lemma SessionExactly(ms: seq<Message>, over: bool) returns (n: nat)
    ensures FirstFatal(false, ms, n)
    ensures var (end, why) := Dispatched(State(false, false, [], []), ms, over);
      var handled := if n < |ms| then ms[..n + 1] else ms;
      && why == (if n < |ms| then Some(Blame(ms[n])) else if over then None else Some(TransportClosed))
      && (if DescribedBy(ms, |handled|)
          then end.calls == CallsFor(Candidates(handled), true) && end.pending == []
          else end.calls == [] && end.pending == Candidates(handled))
  {
    n := SomeFirstFatal(ms, 0);
    EndsAtFirstFatal(State(false, false, [], []), ms, over, n);
    FreshSession(ms, over);
    hide Dispatched, CallsFor, Candidates, Fatal, Blame, DescribedBy, FirstFatal, Taken;
    var end, handled := Dispatched(State(false, false, [], []), ms, over).0, if n < |ms| then ms[..n + 1] else ms;
    assert ms[..|ms|] == ms;
    if !end.described { CallsForInjective(end.pending, Candidates(handled), true); }
  }

  /** Nothing goes wrong with the message. */
  predicate GoesWell(m: Message) {
    match m
    case Offer(remoteOk, createOk, localOk, sendOk) => remoteOk && createOk && localOk && sendOk
    case Answer(remoteOk) => remoteOk
    case Ice(text, decoded, addOk) => text == "" || (decoded.Some? && addOk)
    case Bye => false
    case Error => false
    case Other => true
  }

  /** When all goes well, every message is handled, and every candidate is handed over or waits for a description. */
  lemma GoodSession(ms: seq<Message>, over: bool)
    requires forall m :: m in ms ==> GoesWell(m)
    ensures var (end, why) := Dispatched(State(false, false, [], []), ms, over);
      && why == (if over then None else Some(TransportClosed))
      && (if exists m :: m in ms && (m.Offer? || m.Answer?)
          then end.calls == CallsFor(Candidates(ms), true) && end.pending == []
          else end.calls == [] && end.pending == Candidates(ms))
  {
    var n := SessionExactly(ms, over);
    hide Dispatched, CallsFor, Candidates, Blame;
    assert forall j :: 0 <= j < |ms| ==> GoesWell(ms[j]);
    if m :| m in ms && (m.Offer? || m.Answer?) {
      var j :| 0 <= j < |ms| && ms[j] == m;
      assert Describes(ms[j]);
    }
  }
}
