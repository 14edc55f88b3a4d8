/** The order of commands in a session: accepted, received, executed and completed first in, first out. */
module SessionOrder {
  import opened Wrappers
  import opened Session

  // ---------------------------------------------------------------------
  // What stands in line
  // ---------------------------------------------------------------------

  // One after the other: the delivered commands, those waiting for delivery, the one in hand, the
  // queued ones and the one being sent.
  function Line(s: State): seq<Command> {
    s.history.delivered + s.replies + Only(s.owner.hand) + s.queue + Only(s.node.sending)
  }

  function Only(c: Option<Command>): seq<Command> {
    if c.Some? then [c.value] else []
  }

  // Numbers are given out in the order of submission.
  ghost predicate Ascending(q: seq<Command>, limit: nat) {
    && (forall i, j | 0 <= i < j < |q| :: q[i].id < q[j].id)
    && (forall i | 0 <= i < |q| :: q[i].id < limit)
  }

  ghost predicate LineInv(s: State) {
    Ascending(Line(s), s.next)
  }

  // What was sent was received, is queued, or was dropped with the channel, in this order.
  ghost predicate OrderInv(s: State) {
    && s.history.sent == s.history.received + s.queue + s.history.dropped
    && (s.history.dropped != [] ==> s.owner.pc.Gone?)
    && Ascending(s.history.sent + Only(s.node.sending), s.next)
    && (s.owner.hand.Some? ==>
          s.history.received != [] && s.owner.hand.value == s.history.received[|s.history.received| - 1])
  }

  // The sequences hold the same commands as the sets.
  ghost predicate TallyInv(s: State) {
    && (forall c: Command :: c in s.history.accepted <==> c in s.history.sent)
    && multiset(s.history.delivered) + multiset(s.replies) == s.history.completed
    && multiset(s.history.dropped) <= s.history.lost
  }

  // A completion belongs to a command that was executed, or drained after close.
  ghost predicate OutcomeInv(s: State) {
    && (s.owner.pc.Retiring? || s.owner.pc.Unleasing? || s.owner.pc.Replying? ==>
          s.owner.hand.Some? && s.owner.hand.value in s.history.executed)
    && (s.owner.pc.DrainReplying? ==> s.owner.hand.Some? && s.owner.hand.value in s.history.drained)
    && (forall c: Command | c in s.history.completed || c in s.history.failed ::
          c in s.history.executed || c in s.history.drained)
    && (s.history.drained != {} ==> s.closed)
  }

  // ---------------------------------------------------------------------
  // Every action keeps the order
  // ---------------------------------------------------------------------

  lemma DropMiddle(a: seq<Command>, b: seq<Command>, c: seq<Command>, limit: nat)
    requires Ascending(a + b + c, limit)
    ensures Ascending(a + c, limit)
  {
    var all, rest := a + b + c, a + c;
    forall i, j | 0 <= i < j < |rest| ensures rest[i].id < rest[j].id {
      var i', j' := if i < |a| then i else i + |b|, if j < |a| then j else j + |b|;
      assert rest[i] == all[i'] && rest[j] == all[j'];
    }
    forall i | 0 <= i < |rest| ensures rest[i].id < limit {
      assert rest[i] == all[if i < |a| then i else i + |b|];
    }
  }

  lemma AddLast(q: seq<Command>, c: Command)
    requires Ascending(q, c.id)
    ensures Ascending(q + [c], c.id + 1)
  {
  }

  lemma SendLine(s: State, l: SendLabel)
    requires SendEnabled(s, l) && LineInv(s) && PcInv(s)
    ensures LineInv(SendNext(s, l))
  {
    var u := SendNext(s, l);
    var front := s.history.delivered + s.replies + Only(s.owner.hand) + s.queue;
    match l
    case Prepare =>
      assert Line(s) == front && Line(u) == front + [u.node.sending.value];
      AddLast(front, u.node.sending.value);
    case TrySend => assert Line(u) == Line(s);
    case SendFails =>
      DropMiddle(front, Only(s.node.sending), [], s.next);
      assert Line(s) == front + Only(s.node.sending) + [] && Line(u) == front + [];
    case _ => assert Line(u) == Line(s);
  }

  lemma FinishLine(s: State, l: FinishLabel)
    requires FinishEnabled(s, l) && LineInv(s)
    ensures LineInv(FinishNext(s, l))
  {
    if l.Deliver? {
      assert s.replies == [s.replies[0]] + s.replies[1..];
    }
    assert Line(FinishNext(s, l)) == Line(s);
  }

  lemma WorkLine(s: State, l: WorkLabel)
    requires WorkEnabled(s, l) && LineInv(s) && PcInv(s)
    ensures LineInv(WorkNext(s, l))
  {
    if l.Receive? {
      assert s.queue == [s.queue[0]] + s.queue[1..];
    }
    assert Line(WorkNext(s, l)) == Line(s);
  }

  // The command in hand leaves without a reply.
  lemma HandLine(s: State, u: State)
    requires LineInv(s) && Line(u) == s.history.delivered + s.replies + (s.queue + Only(s.node.sending))
             && u.next == s.next
    ensures LineInv(u)
  {
    var front, back := s.history.delivered + s.replies, s.queue + Only(s.node.sending);
    assert Line(s) == front + Only(s.owner.hand) + back;
    DropMiddle(front, Only(s.owner.hand), back, s.next);
  }

  lemma AnswerLine(s: State, l: AnswerLabel)
    requires AnswerEnabled(s, l) && LineInv(s)
    ensures LineInv(AnswerNext(s, l))
  {
    var u := AnswerNext(s, l);
    if l.ReplyFails? || l.OwnerPanics? {
      HandLine(s, u);
    } else {
      assert Line(u) == Line(s);
    }
  }

  lemma DrainLine(s: State, l: DrainLabel)
    requires DrainEnabled(s, l) && LineInv(s) && PcInv(s)
    ensures LineInv(DrainStep(s, l))
  {
    var u := DrainStep(s, l);
    match l
    case DrainReplyFails => HandLine(s, u);
    case Exit =>
      var front := s.history.delivered + s.replies + Only(s.owner.hand);
      DropMiddle(front, s.queue, Only(s.node.sending), s.next);
      assert Line(u) == front + Only(s.node.sending);
    case DrainNext =>
      assert s.queue == [s.queue[0]] + s.queue[1..];
      assert Line(u) == Line(s);
    case _ => assert Line(u) == Line(s);
  }

  lemma LineKept(s: State, l: Label)
    requires Enabled(s, l) && LineInv(s) && PcInv(s)
    ensures LineInv(Next(s, l))
  {
    match l
    case Gate(g) => assert Line(Next(s, l)) == Line(s);
    case Send(d) => SendLine(s, d);
    case Finish(f) => FinishLine(s, f);
    case Work(w) => WorkLine(s, w);
    case Answer(a) => AnswerLine(s, a);
    case Drain(d) => DrainLine(s, d);
    case Bridge(b) => assert Line(Next(s, l)) == Line(s);
  }

  lemma SendOrder(s: State, l: SendLabel)
    requires SendEnabled(s, l) && OrderInv(s) && PcInv(s)
    ensures OrderInv(SendNext(s, l))
  {
    var u, h := SendNext(s, l), s.history;
    match l
    case Prepare =>
      assert h.sent + [] == h.sent;
      AddLast(h.sent, u.node.sending.value);
    case TrySend =>
      assert u.history.sent + [] == h.sent + Only(s.node.sending);
      assert u.queue + [] == u.queue
             && h.received + (s.queue + Only(s.node.sending)) == h.received + s.queue + Only(s.node.sending);
    case SendFails =>
      DropMiddle(h.sent, Only(s.node.sending), [], s.next);
      assert h.sent + Only(s.node.sending) + [] == h.sent + Only(s.node.sending);
    case _ =>
  }

  lemma WorkOrder(s: State, l: WorkLabel)
    requires WorkEnabled(s, l) && OrderInv(s) && PcInv(s)
    ensures OrderInv(WorkNext(s, l))
  {
    if l.Receive? {
      ReceiveOrder(s);
    } else {
      WorkKeepsHand(s, l);
      assert WorkNext(s, l).next == s.next && WorkNext(s, l).owner.pc.Gone? == s.owner.pc.Gone?;
    }
  }

  lemma ReceiveOrder(s: State)
    requires WorkEnabled(s, Receive) && OrderInv(s)
    ensures OrderInv(WorkNext(s, Receive))
  {
    assert s.queue == [s.queue[0]] + s.queue[1..];
  }

  lemma DrainOrder(s: State, l: DrainLabel)
    requires DrainEnabled(s, l) && OrderInv(s) && PcInv(s)
    ensures OrderInv(DrainStep(s, l))
  {
    if l.DrainNext? {
      assert s.queue == [s.queue[0]] + s.queue[1..];
    }
  }

  lemma AnswerOrder(s: State, l: AnswerLabel)
    requires AnswerEnabled(s, l) && OrderInv(s)
    ensures OrderInv(AnswerNext(s, l))
  {
  }

  lemma FinishOrder(s: State, l: FinishLabel)
    requires FinishEnabled(s, l) && OrderInv(s)
    ensures OrderInv(FinishNext(s, l))
  {
  }

  lemma OrderKept(s: State, l: Label)
    requires Enabled(s, l) && OrderInv(s) && PcInv(s)
    ensures OrderInv(Next(s, l))
  {
    match l
    case Gate(g) => assert OrderInv(s.(node := GateNext(s, g)));
    case Send(d) => SendOrder(s, d);
    case Finish(f) => FinishOrder(s, f);
    case Work(w) => WorkOrder(s, w);
    case Answer(a) => AnswerOrder(s, a);
    case Drain(d) => DrainOrder(s, d);
    case Bridge(b) => assert OrderInv(s.(bridge := B.Next(s.bridge, b)));
  }

  lemma FinishTally(s: State, l: FinishLabel)
    requires FinishEnabled(s, l) && TallyInv(s)
    ensures TallyInv(FinishNext(s, l))
  {
    if l.Deliver? {
      assert s.replies == [s.replies[0]] + s.replies[1..];
    }
  }

  lemma AnswerTally(s: State, l: AnswerLabel)
    requires AnswerEnabled(s, l) && TallyInv(s)
    ensures TallyInv(AnswerNext(s, l))
  {
  }

  lemma DrainTally(s: State, l: DrainLabel)
    requires DrainEnabled(s, l) && TallyInv(s)
    ensures TallyInv(DrainStep(s, l))
  {
  }

  lemma SendTally(s: State, l: SendLabel)
    requires SendEnabled(s, l) && TallyInv(s)
    ensures TallyInv(SendNext(s, l))
  {
  }

  lemma WorkTally(s: State, l: WorkLabel)
    requires WorkEnabled(s, l) && TallyInv(s)
    ensures TallyInv(WorkNext(s, l))
  {
  }

  lemma TallyKept(s: State, l: Label)
    requires Enabled(s, l) && TallyInv(s)
    ensures TallyInv(Next(s, l))
  {
    match l
    case Gate(g) => assert TallyInv(s.(node := GateNext(s, g)));
    case Send(d) => SendTally(s, d);
    case Finish(f) => FinishTally(s, f);
    case Work(w) => WorkTally(s, w);
    case Answer(a) => AnswerTally(s, a);
    case Drain(d) => DrainTally(s, d);
    case Bridge(b) => assert TallyInv(s.(bridge := B.Next(s.bridge, b)));
  }

  // ---------------------------------------------------------------------
  // Runs
  // ---------------------------------------------------------------------

  lemma WorkOutcome(s: State, l: WorkLabel)
    requires WorkEnabled(s, l) && OutcomeInv(s) && PcInv(s)
    ensures OutcomeInv(WorkNext(s, l))
  {
  }

  lemma AnswerOutcome(s: State, l: AnswerLabel)
    requires AnswerEnabled(s, l) && OutcomeInv(s) && PcInv(s)
    ensures OutcomeInv(AnswerNext(s, l))
  {
  }

  lemma DrainOutcome(s: State, l: DrainLabel)
    requires DrainEnabled(s, l) && OutcomeInv(s) && CloseInv(s)
    ensures OutcomeInv(DrainStep(s, l))
  {
  }

  lemma SendOutcome(s: State, l: SendLabel)
    requires SendEnabled(s, l) && OutcomeInv(s)
    ensures OutcomeInv(SendNext(s, l))
  {
  }

  lemma FinishOutcome(s: State, l: FinishLabel)
    requires FinishEnabled(s, l) && OutcomeInv(s)
    ensures OutcomeInv(FinishNext(s, l))
  {
  }

  lemma OutcomeKept(s: State, l: Label)
    requires Enabled(s, l) && OutcomeInv(s) && PcInv(s) && CloseInv(s)
    ensures OutcomeInv(Next(s, l))
  {
    match l
    case Gate(g) => assert OutcomeInv(s.(node := GateNext(s, g)));
    case Bridge(b) => assert OutcomeInv(s.(bridge := B.Next(s.bridge, b)));
    case Work(w) => WorkOutcome(s, w);
    case Answer(a) => AnswerOutcome(s, a);
    case Drain(d) => DrainOutcome(s, d);
    case Send(d) => SendOutcome(s, d);
    case Finish(f) => FinishOutcome(s, f);
  }

  ghost predicate Orderly(s: State) {
    Invariant(s) && LineInv(s) && OrderInv(s) && TallyInv(s) && OutcomeInv(s)
  }

  lemma StepOrderly(s: State, l: Label)
    requires Orderly(s) && Enabled(s, l)
    ensures Orderly(Next(s, l))
  {
    StepKeeps(s, l);
    LineKept(s, l);
    OrderKept(s, l);
    TallyKept(s, l);
    OutcomeKept(s, l);
  }

  lemma {:induction false} RunOrderly(s: State, ls: seq<Label>)
    requires Orderly(s) && Run(s, ls)
    ensures Orderly(After(s, ls))
    decreases |ls|
  {
    if ls != [] {
      StepOrderly(s, ls[0]);
      RunOrderly(Next(s, ls[0]), ls[1..]);
    }
  }

  // Commands reach the owner in the order in which they were accepted, none is skipped while an
  // earlier one waits, and the one in hand is the latest received. Completions reach Node in the
  // same order: whoever is delivered, waiting, in hand, queued or being sent stands in line.
  ghost predicate InLine(s: State) {
    var h := s.history;
    && h.sent == h.received + s.queue + h.dropped
    && (forall c: Command :: c in h.accepted <==> c in h.sent)
    && h.completed == multiset(h.delivered) + multiset(s.replies)
    && (h.dropped != [] ==> s.owner.pc.Gone? && s.panicked)
    && (forall i, j | 0 <= i < j < |h.sent| :: h.sent[i].id < h.sent[j].id)
    && (s.owner.hand.Some? ==> h.received != [] && s.owner.hand.value == h.received[|h.received| - 1])
    && Ascending(h.delivered + s.replies + Only(s.owner.hand) + s.queue + Only(s.node.sending), s.next)
  }

  lemma StandInLine(s: State)
    requires LineInv(s) && OrderInv(s) && TallyInv(s) && CloseInv(s)
    ensures InLine(s)
  {
    DropMiddle(s.history.sent, Only(s.node.sending), [], s.next);
    assert s.history.sent + Only(s.node.sending) + [] == s.history.sent + Only(s.node.sending);
    assert s.history.sent + [] == s.history.sent;
    if s.history.dropped != [] {
      assert s.history.dropped[0] in multiset(s.history.dropped);
    }
  }

  lemma OrderlyInLine(s: State)
    requires Orderly(s)
    ensures InLine(s)
  {
    StandInLine(s);
  }

  lemma FirstInFirstOut(capacity: nat, ls: seq<Label>)
    requires Run(Initial(capacity), ls)
    ensures InLine(After(Initial(capacity), ls))
  {
    AllOrderly(capacity, ls);
    OrderlyInLine(After(Initial(capacity), ls));
  }

  lemma AllOrderly(capacity: nat, ls: seq<Label>)
    requires Run(Initial(capacity), ls)
    ensures Orderly(After(Initial(capacity), ls))
  {
    InitialInvariant(capacity);
    RunOrderly(Initial(capacity), ls);
  }

  lemma OrderlyOutcome(s: State, c: Command)
    requires Orderly(s)
    ensures c in s.history.completed ==> c in s.history.executed || (c in s.history.drained && s.closed)
  {
  }

  // A command is answered only after it was executed, unless the session was closed and it was drained.
  lemma AnsweredWereExecuted(capacity: nat, ls: seq<Label>, c: Command)
    requires Run(Initial(capacity), ls)
    ensures var s := After(Initial(capacity), ls);
            c in s.history.completed ==> c in s.history.executed || (c in s.history.drained && s.closed)
  {
    AllOrderly(capacity, ls);
    OrderlyOutcome(After(Initial(capacity), ls), c);
  }

  // The record of what was sent, received and delivered is only ever continued.
  ghost predicate Continues(h: History, k: History) {
    h.sent <= k.sent && h.received <= k.received && h.delivered <= k.delivered
  }

  lemma WorkContinues(s: State, l: WorkLabel)
    requires WorkEnabled(s, l)
    ensures Continues(s.history, WorkNext(s, l).history)
  {
    if !l.Receive? {
      WorkKeepsHand(s, l);
    }
  }

  lemma AnswerContinues(s: State, l: AnswerLabel)
    requires AnswerEnabled(s, l)
    ensures Continues(s.history, AnswerNext(s, l).history)
  {
  }

  lemma DrainContinues(s: State, l: DrainLabel)
    requires DrainEnabled(s, l)
    ensures Continues(s.history, DrainStep(s, l).history)
  {
  }

  lemma SendContinues(s: State, l: SendLabel)
    requires SendEnabled(s, l)
    ensures Continues(s.history, SendNext(s, l).history)
  {
  }

  lemma FinishContinues(s: State, l: FinishLabel)
    requires FinishEnabled(s, l)
    ensures Continues(s.history, FinishNext(s, l).history)
  {
  }

  lemma StepContinues(s: State, l: Label)
    requires Enabled(s, l)
    ensures Continues(s.history, Next(s, l).history)
  {
    match l
    case Gate(_) =>
    case Bridge(_) =>
    case Work(w) => WorkContinues(s, w);
    case Answer(a) => AnswerContinues(s, a);
    case Drain(d) => DrainContinues(s, d);
    case Send(d) => SendContinues(s, d);
    case Finish(f) => FinishContinues(s, f);
  }

  lemma {:induction false} RunContinues(s: State, ls: seq<Label>)
    requires Run(s, ls)
    ensures Continues(s.history, After(s, ls).history)
    decreases |ls|
  {
    if ls != [] {
      StepContinues(s, ls[0]);
      RunContinues(Next(s, ls[0]), ls[1..]);
    }
  }

  // ---------------------------------------------------------------------
  // After close
  // ---------------------------------------------------------------------

  // Closed, and no submit is past the check for it.
  predicate Shut(s: State) {
    s.closed && !PastClosedCheck(s.node)
  }

  lemma ShutStep(s: State, l: Label)
    requires Shut(s) && Enabled(s, l)
    ensures Shut(Next(s, l)) && Next(s, l).history.sent == s.history.sent
  {
    match l
    case Gate(g) => assert !PastClosedCheck(GateNext(s, g));
    case Bridge(_) =>
    case Work(w) => ShutWork(s, w);
    case Answer(a) => ShutAnswer(s, a);
    case Drain(d) => ShutDrain(s, d);
    case Send(d) => ShutSend(s, d);
    case Finish(f) => ShutFinish(s, f);
  }

  lemma ShutWork(s: State, l: WorkLabel)
    requires Shut(s) && WorkEnabled(s, l)
    ensures Shut(WorkNext(s, l)) && WorkNext(s, l).history.sent == s.history.sent
  {
  }

  lemma ShutAnswer(s: State, l: AnswerLabel)
    requires Shut(s) && AnswerEnabled(s, l)
    ensures Shut(AnswerNext(s, l)) && AnswerNext(s, l).history.sent == s.history.sent
  {
  }

  lemma ShutDrain(s: State, l: DrainLabel)
    requires Shut(s) && DrainEnabled(s, l)
    ensures Shut(DrainStep(s, l)) && DrainStep(s, l).history.sent == s.history.sent
  {
  }

  lemma ShutSend(s: State, l: SendLabel)
    requires Shut(s) && SendEnabled(s, l)
    ensures Shut(SendNext(s, l)) && SendNext(s, l).history.sent == s.history.sent
  {
  }

  lemma ShutFinish(s: State, l: FinishLabel)
    requires Shut(s) && FinishEnabled(s, l)
    ensures Shut(FinishNext(s, l)) && FinishNext(s, l).history.sent == s.history.sent
  {
  }

  // Once closed, by dispose or by a panic, a session accepts nothing new.
  lemma {:induction false} ShutAcceptsNothing(s: State, ls: seq<Label>)
    requires Shut(s) && Run(s, ls)
    ensures Shut(After(s, ls)) && After(s, ls).history.sent == s.history.sent
    decreases |ls|
  {
    if ls != [] {
      ShutStep(s, ls[0]);
      ShutAcceptsNothing(Next(s, ls[0]), ls[1..]);
    }
  }

  // A disposed or panicked session is closed.
  lemma ClosedWhenOver(capacity: nat, ls: seq<Label>)
    requires Run(Initial(capacity), ls)
    ensures var s := After(Initial(capacity), ls);
            s.panicked || s.node.pc.Closing? || s.node.pc.Joining? || Drains(s.owner) ==> s.closed
  {
    Reached(capacity, ls);
  }

  // ---------------------------------------------------------------------
  // Commands get through
  // ---------------------------------------------------------------------

  // A submit that the gate let through, with a slot free and the owner there, is accepted last in line.
  lemma SubmitAccepted(s: State)
    requires Invariant(s) && s.node.pc.Reserving? && s.pending < s.capacity && !s.owner.pc.Gone?
    ensures SendEnabled(s, Reserve)
    ensures var a := SendNext(s, Reserve);
            SendEnabled(a, Admit) && var b := SendNext(a, Admit);
            SendEnabled(b, Prepare) && var c := SendNext(b, Prepare);
            SendEnabled(c, TrySend) && var d := SendNext(c, TrySend);
            d.node.pc.Idle? && d.queue == s.queue + [Command(s.next, s.node.run)] && d.pending == s.pending + 1
  {
  }

  // The owner at the top of its loop, while the session is open, takes the first command in the queue.
  lemma OwnerTakes(s: State)
    requires s.owner.pc.Loop? && !s.closed && s.queue != [] && s.waiting == 0
    ensures WorkEnabled(s, CheckClosed)
    ensures var a := WorkNext(s, CheckClosed);
            WorkEnabled(a, Sync) && var b := WorkNext(a, Sync);
            WorkEnabled(b, Receive) && var c := WorkNext(b, Receive);
            && c.owner == Owner(Executing, Some(s.queue[0]), s.queue[0].run) && c.waiting == 0
            && c.queue == s.queue[1..] && c.replies == s.replies
  {
  }

  // And answers it once it has been executed: there is always room for the reply.
  lemma OwnerAnswers(s: State)
    requires SlotsInv(s) && s.owner.pc.Executing? && s.owner.hand.Some? && s.waiting == 0
    ensures WorkEnabled(s, FinishExecution)
    ensures var a := WorkNext(s, FinishExecution);
            WorkEnabled(a, Retire) && var b := WorkNext(a, Retire);
            AnswerEnabled(b, DropLease) && var c := AnswerNext(b, DropLease);
            AnswerEnabled(c, Reply) && AnswerNext(c, Reply).replies == s.replies + [s.owner.hand.value]
  {
  }

  // The owner waits for Node until its call is answered or its channel closed, until a deadline or a
  // cancellation, until the bridge is shut down, or until it panics; and waits for one thing less at a time.
  lemma WaitEndsExactly(s: State, l: WorkLabel)
    requires WorkEnabled(s, l) && WorkNext(s, l).waiting != s.waiting
    ensures WorkNext(s, l).waiting == s.waiting + 1 ==> RunsGuest(s.owner)
    ensures WorkNext(s, l).waiting != s.waiting + 1 ==>
              && WorkNext(s, l).waiting == s.waiting - 1
              && (l.WaitInterrupted? || s.bridge.refs.released || exists c | c in s.bridge.calls ::
                  !s.bridge.calls[c].sender)
  {
  }
}
