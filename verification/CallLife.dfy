/** The life of a host call: in which order calls reach Node, and who answers them. */
module CallLife {
  import opened Wrappers
  import opened Bridge
  import opened BridgeProtocol

  // ---------------------------------------------------------------------
  // Order
  // ---------------------------------------------------------------------

  function Only(c: Option<CallId>): seq<CallId> {
    if c.Some? then [c.value] else []
  }

  // The call on the Node stack, the queued ones, and the one being dispatched.
  function Line(w: Flow): seq<CallId> {
    Only(w.running) + w.queue + Only(w.dispatching)
  }

  // Numbers are given out in the order of dispatch.
  ghost predicate Ascending(q: seq<CallId>, limit: nat) {
    && (forall i, j | 0 <= i < j < |q| :: q[i] < q[j])
    && (forall i | 0 <= i < |q| :: q[i] < limit)
  }

  ghost predicate InLine(w: Flow) {
    Ascending(Line(w), w.next)
  }

  lemma Shorter(a: seq<CallId>, b: seq<CallId>, c: seq<CallId>, limit: nat)
    requires Ascending(a + b + c, limit)
    ensures Ascending(b + c, limit) && Ascending(a + b, limit)
  {
    var all := a + b + c;
    assert forall i | 0 <= i < |b + c| :: (b + c)[i] == all[|a| + i];
    assert forall i | 0 <= i < |a + b| :: (a + b)[i] == all[i];
  }

  // What an action does to the line.
  predicate FlowIs(s: State, l: Label, w: Flow) {
    match l
    case Begin(_) => s.flow.dispatching.None? && w == s.flow.(next := s.flow.next + 1, dispatching := Some(s.flow.next))
    case Enqueue =>
      s.flow.dispatching.Some? && w == s.flow.(queue := s.flow.queue + [s.flow.dispatching.value], dispatching := None)
    case Abort => w == s.flow.(dispatching := None)
    case Start => s.flow.running.None? && s.flow.queue != []
                  && w == s.flow.(queue := s.flow.queue[1..], running := Some(s.flow.queue[0]))
    case End(_) => w == s.flow || w == s.flow.(running := None)
    case DropMessage => w == s.flow.(running := None)
    case _ => w == s.flow
  }

  lemma FlowAfter(s: State, l: Label)
    requires Enabled(s, l)
    ensures FlowIs(s, l, Next(s, l).flow)
  {
  }

  lemma OwnerLine(s: State, l: Label, w: Flow)
    requires InLine(s.flow) && FlowIs(s, l, w) && (l.Begin? || l.Enqueue? || l.Abort?)
    ensures InLine(w)
  {
    var v := s.flow;
    match l
    case Begin(_) => assert Line(w) == Line(v) + [v.next];
    case Enqueue => assert Line(w) == Line(v);
    case Abort =>
      Shorter(Only(v.running), v.queue, Only(v.dispatching), v.next);
      assert Line(w) == Only(v.running) + v.queue;
  }

  lemma NodeLine(s: State, l: Label, w: Flow)
    requires InLine(s.flow) && FlowIs(s, l, w) && !l.Begin? && !l.Enqueue? && !l.Abort?
    ensures InLine(w)
  {
    var v := s.flow;
    if l.Start? {
      assert v.queue == [v.queue[0]] + v.queue[1..];
      assert Line(w) == Line(v);
    } else if w != v {
      Shorter(Only(v.running), v.queue, Only(v.dispatching), v.next);
      assert Line(w) == v.queue + Only(v.dispatching);
    }
  }

  lemma LineFrom(s: State, l: Label, w: Flow)
    requires InLine(s.flow) && FlowIs(s, l, w)
    ensures InLine(w)
  {
    if l.Begin? || l.Enqueue? || l.Abort? {
      OwnerLine(s, l, w);
    } else {
      NodeLine(s, l, w);
    }
  }

  lemma {:induction false} RunInLine(s: State, ls: seq<Label>)
    requires InLine(s.flow) && Run(s, ls)
    ensures InLine(After(s, ls).flow)
    decreases |ls|
  {
    if ls != [] {
      FlowAfter(s, ls[0]);
      LineFrom(s, ls[0], Next(s, ls[0]).flow);
      RunInLine(Next(s, ls[0]), ls[1..]);
    }
  }

  // Host calls reach Node in the order in which they were dispatched.
  lemma CallsInOrder(ls: seq<Label>)
    requires Run(INITIAL, ls)
    ensures var w := After(INITIAL, ls).flow;
            Ascending(Only(w.running) + w.queue + Only(w.dispatching), w.next)
  {
    RunInLine(INITIAL, ls);
  }

  // ---------------------------------------------------------------------
  // Answers
  // ---------------------------------------------------------------------

  // The action answers call `c`, or gives its answer up.
  predicate Takes(s: State, l: Label, c: CallId) {
    match l
    case EnqueueFail => s.flow.dispatching == Some(c)
    case ReplyNow => s.flow.running == Some(c)
    case Settle(d) => d == c
    case Prune(p) => p in s.promises.table && s.promises.table[p] == c && c in s.calls && !s.calls[c].alive
    case CancelOne(p) => p in s.promises.drained && s.promises.drained[p] == c && Settleable(s.calls, c)
    case Collect(d) => d == c
    case _ => false
  }

  predicate Answers(s: State, l: Label, c: CallId) {
    Takes(s, l, c) && !l.EnqueueFail? && !l.Collect?
  }

  predicate Waits(s: State, c: CallId) {
    c in s.calls && s.calls[c].sender
  }

  // What becomes of the one call that an action changes.
  predicate Becomes(s: State, l: Label, c: CallId, k: Call, k': Call) {
    && k'.sender == (k.sender && !Takes(s, l, c))
    && k'.replies == k.replies + (if Answers(s, l, c) && (k.sender || l.ReplyNow?) then 1 else 0)
    && k'.alive == (k.alive && l != Abandon(c))
  }

  predicate Settling(l: Label) {
    l.Settle? || l.Prune? || l.CancelOne? || l.Collect?
  }

  lemma SettledAnswered(s: State, l: Label)
    requires Enabled(s, l) && Settling(l) && Subject(s, l).value in s.calls
    ensures Becomes(s, l, Subject(s, l).value, s.calls[Subject(s, l).value], CallAfter(s, l))
  {
  }

  lemma CalledAnswered(s: State, l: Label)
    requires Enabled(s, l) && Subject(s, l).Some? && !l.Begin? && !Settling(l) && Subject(s, l).value in s.calls
    ensures Becomes(s, l, Subject(s, l).value, s.calls[Subject(s, l).value], CallAfter(s, l))
  {
  }

  lemma SubjectAnswered(s: State, l: Label)
    requires Enabled(s, l) && Subject(s, l).Some? && !l.Begin? && Subject(s, l).value in s.calls
    ensures Becomes(s, l, Subject(s, l).value, s.calls[Subject(s, l).value], CallAfter(s, l))
  {
    if Settling(l) {
      SettledAnswered(s, l);
    } else {
      CalledAnswered(s, l);
    }
  }

  // A waiting call is answered, or its answer given up, exactly by its own callback, by its promise
  // settling, by a cancellation, by being pruned once the guest no longer wants it, or by failing to
  // be dispatched. Nothing else touches it.
  lemma AnsweredExactly(s: State, l: Label, c: CallId)
    requires Invariant(s) && Enabled(s, l) && c in s.calls
    ensures c in Next(s, l).calls
    ensures Waits(Next(s, l), c) <==> Waits(s, c) && !Takes(s, l, c)
    ensures Waits(s, c) ==> Next(s, l).calls[c].replies == if Answers(s, l, c) then 1 else 0
    ensures Next(s, l).calls[c].alive <==> s.calls[c].alive && l != Abandon(c)
  {
    OnlySubjectChanges(s, l);
    assert CallInv(s.calls[c]) && c < s.flow.next;
    if Subject(s, l) == Some(c) {
      SubjectAnswered(s, l);
    } else {
      NotSubject(s, l, c);
    }
  }

  lemma NotSubject(s: State, l: Label, c: CallId)
    requires Enabled(s, l) && Subject(s, l) != Some(c)
    ensures !Takes(s, l, c) && l != Abandon(c)
  {
  }

  // ---------------------------------------------------------------------
  // No call is left hanging
  // ---------------------------------------------------------------------

  predicate NodeLabel(l: Label) {
    l.Start? || l.ReplyNow? || l.End? || l.DropMessage?
  }

  // How much Node has to do before its queue and stack are empty.
  function Backlog(s: State): nat {
    5 * |s.flow.queue| +
    if s.flow.running.None? || s.flow.running.value !in s.calls then 0
    else
      match s.calls[s.flow.running.value].phase
      case Running => 4
      case Replied => 3
      case Thening => 3
      case Dropping => 2
      case _ => 1
  }

  // Node can always go on, by itself.
  lemma NodeGoesOn(s: State) returns (l: Label)
    requires FlowInv(s.calls, s.flow) && (s.flow.running.Some? || s.flow.queue != [])
    ensures NodeLabel(l) && Enabled(s, l) && Backlog(Next(s, l)) < Backlog(s)
  {
    if s.flow.running.None? {
      assert s.flow.queue[0] in s.calls;
      l := Start;
    } else {
      var c := s.flow.running.value;
      assert OnNode(s.calls[c].phase);
      match s.calls[c].phase
      case Running => l := ReplyNow;
      case Replied => l := End(true);
      case Thening => l := End(true);
      case Dropping => l := DropMessage;
    }
  }

  // From every reachable state Node alone can work off what was dispatched: no call stays queued or
  // on its stack, and every call that was not being dispatched is then over.
  lemma {:induction false} NodeCatchesUp(s: State) returns (ls: seq<Label>)
    requires Invariant(s)
    ensures Run(s, ls) && forall l | l in ls :: NodeLabel(l)
    ensures var t := After(s, ls);
            && t.flow.queue == [] && t.flow.running.None?
            && forall c | c in t.calls && t.flow.dispatching != Some(c) ::
                t.calls[c].phase.Done? || t.calls[c].phase.Aborted?
    decreases Backlog(s)
  {
    if s.flow.running.None? && s.flow.queue == [] {
      ls := [];
      forall c | c in s.calls && s.flow.dispatching != Some(c)
        ensures s.calls[c].phase.Done? || s.calls[c].phase.Aborted?
      {
        assert !OnOwner(s.calls[c].phase) && !OnNode(s.calls[c].phase) && !s.calls[c].phase.Queued?;
      }
    } else {
      var l := NodeGoesOn(s);
      StepKeeps(s, l);
      var rest := NodeCatchesUp(Next(s, l));
      ls := [l] + rest;
      assert ls[0] == l && ls[1..] == rest;
    }
  }

  // A call whose function returns a promise is over at once and answered when the promise settles.
  lemma ThenableAnswers(s: State, c: CallId)
    requires c in s.calls && CallInv(s.calls[c]) && s.flow.running == Some(c) && s.calls[c].phase.Running?
    ensures Enabled(s, Thenable)
    ensures var t := Next(s, Thenable);
            Enabled(t, End(true)) && var u := Next(t, End(true));
            Enabled(u, Settle(c)) && Next(u, Settle(c)).calls[c].replies == 1
  {
  }
}
