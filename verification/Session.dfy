/**
 The persistent asynchronous session: commands admitted by the Node thread,
 executed by the owner thread, and completed back on Node, together with the
 host bridge the two threads share.

 Each label is one atomic access or the code between two of them. The Node
 thread is inside at most one of submit, a completion callback or dispose; the
 owner thread is at one place of its loop. Bridge actions interleave with both,
 restricted to the thread that performs them.
 */
module Session {
  import opened Wrappers
  import B = BridgeProtocol

  // A submitted operation; `run` marks the guest evaluations.
  datatype Command = Command(id: nat, run: bool)

  datatype NodePc =
    | Idle | Pruning
    | ReadAdmissions | ReadWaiting | ReadActive | ReadCalls | ReadClosed
    | Reserving | Admitting | Preparing | Sending | Releasing | Unadmitting
    | Completing | Closing | Joining

  datatype Node = Node(
    pc: NodePc,
    run: bool,                  // submit: the operation is a guest evaluation
    admitted: bool,             // submit: a guest admission was seen
    blocked: bool,              // submit: see GateNext
    slot: bool,                 // a slot of `pending` is held by this thread
    lease: bool,                // a guest admission is held by this thread
    sending: Option<Command>)   // the command whose token is in the table but which is not sent

  datatype OwnerPc =
    | Loop | Syncing | Receiving | Executing | Retiring | Unleasing | Replying | Polling | Parked
    | Draining | DrainReplying | DrainUnleasing | Exiting | Gone

  datatype Owner = Owner(
    pc: OwnerPc,
    hand: Option<Command>,      // received, not yet answered
    lease: bool)                // the guest admission that came with the command

  // What happened to commands so far.
  datatype History = History(
    accepted: set<Command>,        // sent to the owner
    completed: multiset<Command>,  // a reply was enqueued
    failed: multiset<Command>,     // the completion call itself failed
    lost: multiset<Command>,       // dropped by a panicking owner
    sent: seq<Command>,            // the accepted ones in the order they were sent
    received: seq<Command>,        // taken out of the channel by the owner, in that order
    dropped: seq<Command>,         // still in the channel when its receiver was dropped
    delivered: seq<Command>,       // whose completion callback ran on Node, in that order
    executed: set<Command>,        // executed by the owner, to the end or to a panic
    drained: set<Command>)         // taken out of the channel after close, to be refused

  datatype State = State(
    node: Node,
    owner: Owner,
    capacity: nat,
    pending: int,                  // shared counter: reserved slots
    admissions: int,               // shared counter: guest admissions
    closed: bool,
    queue: seq<Command>,           // the bounded command channel
    replies: seq<Command>,         // the bounded completion queue
    tokens: set<Command>,          // the table of cancellation tokens
    active: bool,                  // shared flag: an execution is active
    executing: bool,               // the interpreter has a live execution
    waiting: nat,                  // shared counter: wait guards on the owner's stack
    next: nat,
    panicked: bool,
    history: History,
    bridge: B.State)

  const IDLE := Node(Idle, false, false, false, false, false, None)

  function Initial(capacity: nat): State {
    State(IDLE, Owner(Loop, None, false), capacity, 0, 0, false, [], [], {}, false, false, 0, 0, false,
          History({}, multiset{}, multiset{}, multiset{}, [], [], [], [], {}, {}), B.INITIAL)
  }

  // Node: the gate of submit, a sequence of loads.
  datatype GateLabel =
    | Submit(run: bool) | PruneDone | LoadAdmissions | LoadWaiting | LoadActive | LoadCalls | LoadClosed

  // Node: the rest of submit, which reserves a slot and sends the command.
  datatype SendLabel =
    | Reserve | ReserveFull | Admit | Prepare | PrepareFails | TrySend | SendFails | ReleaseSlot | DropAdmission

  // Node: the completion callback, and dispose.
  datatype FinishLabel = Deliver | DeliverDone | Dispose | CloseDone | Join

  // Owner: receiving and executing a command.
  datatype WorkLabel =
    | CheckClosed | Recheck | Sync | Receive | ReceiveEmpty
    | StartRun | ExecutionBegins | ExecutionEnds
    | BeginWait | WaitAnswered(c: nat) | WaitInterrupted | WaitCut
    | FinishExecution | Retire | PollDone | SyncIdle | Wake

  // Owner: completing the command; panics.
  datatype AnswerLabel = DropLease | Reply | ReplyFails | CommandPanics | OwnerPanics

  // Owner: draining the channel after close.
  datatype DrainLabel = DrainNext | DrainReply | DrainReplyFails | DrainDrop | DrainEnd | Exit

  datatype Label =
    | Gate(gate: GateLabel) | Send(send: SendLabel) | Finish(finish: FinishLabel)
    | Work(work: WorkLabel) | Answer(answer: AnswerLabel) | Drain(drain: DrainLabel)
    | Bridge(bridge: B.Label)

  function Bit(b: bool): int {
    if b then 1 else 0
  }

  // The number of queued Run commands.
  function Runs(q: seq<Command>): nat {
    if q == [] then 0 else Runs(q[1..]) + (if q[0].run then 1 else 0)
  }

  // A host call that waits for Node: dispatched and not settled.
  predicate Unsettled(b: B.State, c: nat) {
    c in b.calls && b.calls[c].dep && !B.OnOwner(b.calls[c].phase)
  }

  predicate AwaitsNode(b: B.State) {
    exists c | c in b.calls :: Unsettled(b, c)
  }

  // Some Run command was sent to the owner and has not finished.
  predicate RunUnfinished(s: State) {
    Runs(s.queue) > 0 || s.owner.lease
  }

  // ---------------------------------------------------------------------
  // The Node thread
  // ---------------------------------------------------------------------

  predicate GateEnabled(s: State, l: GateLabel) {
    match l
    case Submit(_) => s.node.pc.Idle?
    case PruneDone => s.node.pc.Pruning?
    case LoadAdmissions => s.node.pc.ReadAdmissions?
    case LoadWaiting => s.node.pc.ReadWaiting?
    case LoadActive => s.node.pc.ReadActive?
    case LoadCalls => s.node.pc.ReadCalls?
    case LoadClosed => s.node.pc.ReadClosed?
  }

  // The gate only reads the shared state. `blocked` records a reason to refuse:
  // a Run was unfinished when the admission counter was read, or the activity
  // flag was set when it was read, with some host call unsettled.
  function GateNext(s: State, l: GateLabel): Node
    requires GateEnabled(s, l)
  {
    var n := s.node;
    match l
    case Submit(run) => n.(pc := Pruning, run := run, admitted := false, blocked := false)
    case PruneDone => n.(pc := ReadAdmissions)
    case LoadAdmissions =>
      n.(pc := ReadWaiting, admitted := s.admissions > 0, blocked := RunUnfinished(s) && AwaitsNode(s.bridge))
    case LoadWaiting => n.(pc := if s.waiting > 0 then Idle else if n.admitted then ReadCalls else ReadActive)
    case LoadActive =>
      n.(pc := if s.active then ReadCalls else ReadClosed,
         blocked := n.blocked || (s.active && AwaitsNode(s.bridge)))
    case LoadCalls => n.(pc := if s.bridge.deps > 0 then Idle else ReadClosed)
    case LoadClosed => n.(pc := if s.closed then Idle else Reserving)
  }

  // `try_send` fails when the receiver is gone or the channel is full.
  predicate ChannelRefuses(s: State) {
    s.owner.pc.Gone? || |s.queue| >= s.capacity
  }

  predicate SendEnabled(s: State, l: SendLabel) {
    match l
    case Reserve => s.node.pc.Reserving? && s.pending < s.capacity
    case ReserveFull => s.node.pc.Reserving? && s.pending >= s.capacity
    case Admit => s.node.pc.Admitting?
    case Prepare => s.node.pc.Preparing?
    case PrepareFails => s.node.pc.Preparing?
    case TrySend => s.node.pc.Sending? && s.node.sending.Some? && !ChannelRefuses(s)
    case SendFails => s.node.pc.Sending? && s.node.sending.Some? && ChannelRefuses(s)
    case ReleaseSlot => s.node.pc.Releasing?
    case DropAdmission => s.node.pc.Unadmitting?
  }

  function SendNext(s: State, l: SendLabel): State
    requires SendEnabled(s, l)
  {
    var n := s.node;
    match l
    case Reserve => s.(node := n.(pc := Admitting, slot := true), pending := s.pending + 1)
    case ReserveFull => s.(node := n.(pc := Idle))
    case Admit => s.(node := n.(pc := Preparing, lease := n.run), admissions := s.admissions + Bit(n.run))
    case Prepare =>
      var c := Command(s.next, n.run);
      s.(node := n.(pc := Sending, sending := Some(c)), next := s.next + 1, tokens := s.tokens + {c})
    case PrepareFails => s.(node := n.(pc := Releasing))
    case TrySend =>
      var c := n.sending.value;
      s.(node := n.(pc := Idle, slot := false, lease := false, sending := None), queue := s.queue + [c],
         history := s.history.(accepted := s.history.accepted + {c}, sent := s.history.sent + [c]))
    case SendFails => s.(node := n.(pc := Releasing, sending := None), tokens := s.tokens - {n.sending.value})
    case ReleaseSlot => s.(node := n.(pc := Unadmitting, slot := false), pending := s.pending - 1)
    case DropAdmission => s.(node := n.(pc := Idle, lease := false), admissions := s.admissions - Bit(n.lease))
  }

  predicate FinishEnabled(s: State, l: FinishLabel) {
    match l
    case Deliver => s.node.pc.Idle? && s.replies != []
    case DeliverDone => s.node.pc.Completing?
    case Dispose => s.node.pc.Idle?
    case CloseDone => s.node.pc.Closing? && s.bridge.refs.released
    case Join => s.node.pc.Joining? && s.owner.pc.Gone?
  }

  function FinishNext(s: State, l: FinishLabel): State
    requires FinishEnabled(s, l)
  {
    var n := s.node;
    match l
    case Deliver =>
      s.(node := n.(pc := Completing, slot := true), replies := s.replies[1..], tokens := s.tokens - {s.replies[0]},
         history := s.history.(delivered := s.history.delivered + [s.replies[0]]))
    case DeliverDone => s.(node := n.(pc := Idle, slot := false), pending := s.pending - 1)
    case Dispose => s.(node := n.(pc := Closing), closed := true)
    case CloseDone => s.(node := n.(pc := Joining))
    case Join => s.(node := n.(pc := Idle))
  }

  // ---------------------------------------------------------------------
  // The owner thread
  // ---------------------------------------------------------------------

  // Where guest code may run.
  predicate RunsGuest(o: Owner) {
    o.pc.Syncing? || o.pc.Executing? || o.pc.Polling?
  }

  // The interpreter begins an execution for a Run, once its activity is announced,
  // and for queued jobs whenever it is polled, which announces nothing. The owner
  // waits for a host call until it is answered or its channel is closed, until a
  // deadline or a cancellation, or until the bridge is shut down.
  predicate WorkEnabled(s: State, l: WorkLabel) {
    match l
    case CheckClosed => s.owner.pc.Loop?
    case Recheck => s.owner.pc.Syncing? && s.waiting == 0
    case Sync => s.owner.pc.Syncing? && s.waiting == 0
    case Receive => s.owner.pc.Receiving? && s.queue != []
    case ReceiveEmpty => s.owner.pc.Receiving? && s.queue == []
    case StartRun => s.owner.pc.Executing? && s.owner.lease
    case ExecutionBegins => RunsGuest(s.owner) && (s.owner.lease ==> s.active)
    case ExecutionEnds => RunsGuest(s.owner) || s.owner.pc.Retiring?
    case BeginWait => RunsGuest(s.owner)
    case WaitAnswered(c) => s.waiting > 0 && c in s.bridge.calls && !s.bridge.calls[c].sender
    case WaitInterrupted => s.waiting > 0
    case WaitCut => s.waiting > 0 && s.bridge.refs.released
    case FinishExecution => s.owner.pc.Executing? && s.waiting == 0
    case Retire => s.owner.pc.Retiring?
    case SyncIdle => s.owner.pc.Polling? && s.waiting == 0
    case PollDone => s.owner.pc.Polling? && s.waiting == 0
    case Wake => s.owner.pc.Parked?
  }

  // Where the owner goes.
  function WorkPc(s: State, l: WorkLabel): OwnerPc {
    match l
    case CheckClosed => if s.closed then Draining else Syncing
    case Recheck => Loop
    case Sync => Receiving
    case Receive => Executing
    case ReceiveEmpty => Polling
    case FinishExecution => Retiring
    case Retire => Unleasing
    case SyncIdle => Parked
    case PollDone => Loop
    case Wake => Loop
    case _ => s.owner.pc
  }

  // The shared activity flag, the interpreter's execution, and the wait guards.
  function WorkActive(s: State, l: WorkLabel): bool {
    match l
    case StartRun => true
    case Sync => s.executing
    case Retire => s.executing
    case SyncIdle => s.executing
    case _ => s.active
  }

  function WorkExecuting(s: State, l: WorkLabel): bool {
    match l
    case ExecutionBegins => true
    case ExecutionEnds => false
    case _ => s.executing
  }

  function WorkWaiting(s: State, l: WorkLabel): nat
    requires WorkEnabled(s, l)
  {
    match l
    case BeginWait => s.waiting + 1
    case WaitAnswered(_) => s.waiting - 1
    case WaitInterrupted => s.waiting - 1
    case WaitCut => s.waiting - 1
    case _ => s.waiting
  }

  function Executed(s: State): History {
    s.history.(executed := s.history.executed + if s.owner.hand.Some? then {s.owner.hand.value} else {})
  }

  function WorkNext(s: State, l: WorkLabel): State
    requires WorkEnabled(s, l)
  {
    var u := s.(owner := s.owner.(pc := WorkPc(s, l)), active := WorkActive(s, l), executing := WorkExecuting(s, l),
                waiting := WorkWaiting(s, l));
    if l.FinishExecution? then u.(history := Executed(s))
    else if l.Receive? then
      u.(owner := Owner(Executing, Some(s.queue[0]), s.queue[0].run), queue := s.queue[1..],
         history := s.history.(received := s.history.received + [s.queue[0]]))
    else u
  }

  predicate Drains(o: Owner) {
    o.pc.Draining? || o.pc.DrainReplying? || o.pc.DrainUnleasing? || o.pc.Exiting? || o.pc.Gone?
  }

  predicate AnswerEnabled(s: State, l: AnswerLabel) {
    match l
    case DropLease => s.owner.pc.Unleasing?
    case Reply => s.owner.pc.Replying? && s.owner.hand.Some? && |s.replies| < s.capacity
    case ReplyFails => s.owner.pc.Replying? && s.owner.hand.Some?
    case CommandPanics => s.owner.pc.Executing?
    case OwnerPanics => !Drains(s.owner) || s.owner.pc.Exiting?
  }

  // `complete` when the call is queued: it waits for room in the completion queue.
  function Enqueued(s: State, pc: OwnerPc): State
    requires s.owner.hand.Some?
  {
    var c := s.owner.hand.value;
    s.(owner := s.owner.(pc := pc, hand := None), replies := s.replies + [c],
       history := s.history.(completed := s.history.completed + multiset{c}))
  }

  // `complete` when the thread-safe function refuses the call.
  function CompletionFailed(s: State, pc: OwnerPc): State
    requires s.owner.hand.Some?
  {
    var c := s.owner.hand.value;
    s.(owner := s.owner.(pc := pc, hand := None), pending := s.pending - 1, tokens := s.tokens - {c},
       history := s.history.(failed := s.history.failed + multiset{c}))
  }

  function InHand(o: Owner): multiset<Command> {
    if o.hand.Some? then multiset{o.hand.value} else multiset{}
  }

  function AnswerNext(s: State, l: AnswerLabel): State
    requires AnswerEnabled(s, l)
  {
    var o := s.owner;
    match l
    case DropLease => s.(owner := o.(pc := Replying, lease := false), admissions := s.admissions - Bit(o.lease))
    case Reply => Enqueued(s, Polling)
    case ReplyFails => CompletionFailed(s, Polling)
    case CommandPanics =>
      s.(owner := o.(pc := Retiring), closed := true, panicked := true, waiting := 0, history := Executed(s))
    case OwnerPanics =>
      // Unwinding drops the wait guards and the command in hand, and its admission with it.
      // While the interpreter is dropped there is no command, and the channel is drained again.
      s.(owner := Owner(Draining, None, false), closed := true, panicked := true, waiting := 0,
         admissions := s.admissions - Bit(o.lease),
         history := s.history.(lost := s.history.lost + InHand(o)))
  }

  predicate DrainEnabled(s: State, l: DrainLabel) {
    match l
    case DrainNext => s.owner.pc.Draining? && s.queue != []
    case DrainReply => s.owner.pc.DrainReplying? && s.owner.hand.Some? && |s.replies| < s.capacity
    case DrainReplyFails => s.owner.pc.DrainReplying? && s.owner.hand.Some?
    case DrainDrop => s.owner.pc.DrainUnleasing?
    case DrainEnd => s.owner.pc.Draining? && s.queue == []
    case Exit => s.owner.pc.Exiting?
  }

  function DrainStep(s: State, l: DrainLabel): State
    requires DrainEnabled(s, l)
  {
    var o := s.owner;
    match l
    case DrainNext =>
      s.(owner := Owner(DrainReplying, Some(s.queue[0]), s.queue[0].run), queue := s.queue[1..],
         history := s.history.(received := s.history.received + [s.queue[0]],
             drained := s.history.drained + {s.queue[0]}))
    case DrainReply => Enqueued(s, DrainUnleasing)
    case DrainReplyFails => CompletionFailed(s, DrainUnleasing)
    case DrainDrop => s.(owner := o.(pc := Draining, lease := false), admissions := s.admissions - Bit(o.lease))
    case DrainEnd => s.(owner := o.(pc := Exiting))
    case Exit =>
      // Dropping the receiver drops whatever is still in the channel.
      s.(owner := o.(pc := Gone), queue := [], admissions := s.admissions - Runs(s.queue),
         history := s.history.(lost := s.history.lost + multiset(s.queue), dropped := s.history.dropped + s.queue))
  }

  // Bridge actions of the owner happen where guest code runs or its results are
  // pruned; those of Node happen outside the gate of submit and outside the join.
  predicate BridgeEnabled(s: State, a: B.Label) {
    && B.Enabled(s.bridge, a)
    && if B.OwnerLabel(a) then RunsGuest(s.owner) || s.owner.pc.Retiring?
       else s.node.pc.Idle? || s.node.pc.Pruning? || s.node.pc.Completing? || s.node.pc.Closing?
  }

  predicate Enabled(s: State, l: Label) {
    match l
    case Gate(g) => GateEnabled(s, g)
    case Send(d) => SendEnabled(s, d)
    case Finish(f) => FinishEnabled(s, f)
    case Work(w) => WorkEnabled(s, w)
    case Answer(a) => AnswerEnabled(s, a)
    case Drain(d) => DrainEnabled(s, d)
    case Bridge(b) => BridgeEnabled(s, b)
  }

  function Next(s: State, l: Label): State
    requires Enabled(s, l)
  {
    match l
    case Gate(g) => s.(node := GateNext(s, g))
    case Send(d) => SendNext(s, d)
    case Finish(f) => FinishNext(s, f)
    case Work(w) => WorkNext(s, w)
    case Answer(a) => AnswerNext(s, a)
    case Drain(d) => DrainStep(s, d)
    case Bridge(b) => s.(bridge := B.Next(s.bridge, b))
  }

  // ---------------------------------------------------------------------
  // The invariant
  // ---------------------------------------------------------------------

  // Every reserved slot is somebody's: the Node thread's, the channel's, the
  // owner's, the completion queue's, or that of a command a panic dropped.
  predicate SlotsInv(s: State) {
    && s.pending == Bit(s.node.slot) + |s.queue| + Bit(s.owner.hand.Some?) + |s.replies| + |s.history.lost|
    && s.pending <= s.capacity
  }

  predicate AdmissionsInv(s: State) {
    s.admissions == Bit(s.node.lease) + Runs(s.queue) + Bit(s.owner.lease)
  }

  // An accepted command is at exactly one place: queued, in hand, completed, failed or lost.
  predicate PlaceInv(s: State, c: Command) {
    && Bit(c in s.history.accepted)
       == multiset(s.queue)[c] + Bit(s.owner.hand == Some(c))
          + s.history.completed[c] + s.history.failed[c] + s.history.lost[c]
    && multiset(s.replies)[c] <= s.history.completed[c]
  }

  // The token table holds exactly the commands whose completion has not been delivered.
  predicate TokenInv(s: State, c: Command) {
    Bit(c in s.tokens)
    == Bit(s.node.sending == Some(c)) + multiset(s.queue)[c] + Bit(s.owner.hand == Some(c))
       + multiset(s.replies)[c] + s.history.lost[c]
  }

  predicate FreshInv(s: State, c: Command) {
    && (c in s.history.accepted || c in s.tokens ==> c.id < s.next)
    && (s.node.sending == Some(c) ==> c !in s.history.accepted)
  }

  predicate PastClosedCheck(n: Node) {
    n.pc.Reserving? || n.pc.Admitting? || n.pc.Preparing? || n.pc.Sending?
  }

  predicate CloseInv(s: State) {
    && (Drains(s.owner) || s.node.pc.Closing? || s.node.pc.Joining? ==> s.closed)
    && (s.owner.pc.Gone? ==> s.queue == [])
    && (s.panicked ==> s.closed)
    && (!s.panicked ==>
          && s.history.lost == multiset{}
          && (PastClosedCheck(s.node) ==> !s.closed)
          && (s.owner.pc.Exiting? ==> s.queue == []))
  }

  // What each place of a thread's code implies about what the thread holds.
  predicate PcInv(s: State) {
    && (s.node.slot <==>
          s.node.pc.Admitting? || s.node.pc.Preparing? || s.node.pc.Sending? || s.node.pc.Releasing?
          || s.node.pc.Completing?)
    && (s.node.sending.Some? <==> s.node.pc.Sending?)
    && (s.node.lease ==> s.node.pc.Preparing? || s.node.pc.Sending? || s.node.pc.Releasing? || s.node.pc.Unadmitting?)
    && (s.node.pc.Preparing? ==> s.node.lease == s.node.run)
    && (s.node.sending.Some? ==> s.node.lease == s.node.sending.value.run)
    && (s.owner.hand.Some? <==>
          s.owner.pc.Executing? || s.owner.pc.Retiring? || s.owner.pc.Unleasing? || s.owner.pc.Replying?
          || s.owner.pc.DrainReplying?)
    && (s.owner.lease ==> s.owner.pc.Executing? || s.owner.pc.Retiring? || s.owner.pc.Unleasing?
                          || s.owner.pc.DrainReplying? || s.owner.pc.DrainUnleasing?)
  }

  // Where the activity flag cannot lag behind the interpreter: between storing it
  // and the next poll, the idle wait included, and while a Run is executed.
  predicate Settled(o: Owner) {
    o.pc.Receiving? || o.pc.Unleasing? || o.pc.Replying? || o.pc.Parked?
  }

  predicate Announced(o: Owner) {
    Settled(o) || (o.lease && (o.pc.Executing? || o.pc.Retiring?))
  }

  predicate ActivityInv(s: State) {
    && (Settled(s.owner) ==> s.active == s.executing)
    && (Announced(s.owner) && s.executing ==> s.active)
    && (s.waiting > 0 ==> RunsGuest(s.owner))
    && (s.node.pc.Joining? ==> s.bridge.refs.released)
  }

  // A gate that saw a reason to refuse never lets the submit through.
  predicate GateInv(s: State) {
    && (s.node.pc.ReadWaiting? && s.node.blocked ==> s.node.admitted && AwaitsNode(s.bridge))
    && (s.node.pc.ReadCalls? && s.node.blocked ==> AwaitsNode(s.bridge))
    && (s.node.pc.ReadActive? || s.node.pc.ReadClosed? || s.node.pc.Reserving? ==> !s.node.blocked)
  }

  ghost predicate Invariant(s: State) {
    && SlotsInv(s)
    && AdmissionsInv(s)
    && (forall c: Command :: CommandInv(s, c))
    && CloseInv(s)
    && PcInv(s)
    && GateInv(s)
    && ActivityInv(s)
    && B.Invariant(s.bridge)
  }

  // ---------------------------------------------------------------------
  // Queues
  // ---------------------------------------------------------------------

  lemma {:induction false} RunsAppend(q: seq<Command>, c: Command)
    ensures Runs(q + [c]) == Runs(q) + Bit(c.run)
  {
    if q == [] {
      assert q + [c] == [c] && [c][1..] == [];
    } else {
      assert (q + [c])[1..] == q[1..] + [c];
      RunsAppend(q[1..], c);
    }
  }

  lemma HeadOut(q: seq<Command>, c: Command)
    requires q != []
    ensures multiset(q)[c] == Bit(q[0] == c) + multiset(q[1..])[c]
  {
    assert q == [q[0]] + q[1..];
  }


  // ---------------------------------------------------------------------
  // Every action keeps the invariant
  // ---------------------------------------------------------------------

  // The part of the invariant that speaks of numbers and of code places.
  predicate CountsInv(s: State) {
    SlotsInv(s) && AdmissionsInv(s) && PcInv(s) && CloseInv(s)
  }

  lemma SendSlots(s: State, l: SendLabel)
    requires SendEnabled(s, l) && SlotsInv(s) && PcInv(s)
    ensures SlotsInv(SendNext(s, l)) && PcInv(SendNext(s, l))
  {
  }

  lemma SendAdmissions(s: State, l: SendLabel)
    requires SendEnabled(s, l) && AdmissionsInv(s) && PcInv(s)
    ensures AdmissionsInv(SendNext(s, l))
  {
    if l.TrySend? {
      RunsAppend(s.queue, s.node.sending.value);
      assert SendNext(s, l).queue == s.queue + [s.node.sending.value];
    } else {
      assert SendNext(s, l).queue == s.queue;
    }
  }

  // The part that speaks of one command.
  predicate CommandInv(s: State, c: Command) {
    PlaceInv(s, c) && TokenInv(s, c) && FreshInv(s, c)
  }

  lemma GateCounts(s: State, l: GateLabel)
    requires GateEnabled(s, l) && CountsInv(s)
    ensures CountsInv(s.(node := GateNext(s, l)))
  {
  }

  lemma SendCounts(s: State, l: SendLabel)
    requires SendEnabled(s, l) && CountsInv(s)
    ensures CountsInv(SendNext(s, l))
  {
    SendSlots(s, l);
    SendAdmissions(s, l);
  }

  lemma FinishCounts(s: State, l: FinishLabel)
    requires FinishEnabled(s, l) && CountsInv(s)
    ensures CountsInv(FinishNext(s, l))
  {
  }

  lemma WorkCounts(s: State, l: WorkLabel)
    requires WorkEnabled(s, l) && CountsInv(s)
    ensures CountsInv(WorkNext(s, l))
  {
    if l.Receive? {
      ReceiveCounts(s);
    } else {
      WorkKeepsHand(s, l);
      WorkCloses(s, l);
    }
  }

  lemma ReceiveCounts(s: State)
    requires WorkEnabled(s, Receive) && CountsInv(s)
    ensures CountsInv(WorkNext(s, Receive))
  {
  }

  // Work other than receiving moves no command and no lease.
  lemma WorkKeepsHand(s: State, l: WorkLabel)
    requires WorkEnabled(s, l) && !l.Receive?
    ensures var t := WorkNext(s, l);
            && t.queue == s.queue && t.replies == s.replies && t.node == s.node
            && t.history == s.history.(executed := t.history.executed)
            && t.owner.hand == s.owner.hand && t.owner.lease == s.owner.lease
            && t.pending == s.pending && t.capacity == s.capacity && t.admissions == s.admissions
  {
  }

  lemma WorkCloses(s: State, l: WorkLabel)
    requires WorkEnabled(s, l) && !l.Receive? && PcInv(s) && CloseInv(s)
    ensures PcInv(WorkNext(s, l)) && CloseInv(WorkNext(s, l))
  {
  }

  lemma AnswerCounts(s: State, l: AnswerLabel)
    requires AnswerEnabled(s, l) && CountsInv(s)
    ensures CountsInv(AnswerNext(s, l))
  {
  }

  lemma DrainCounts(s: State, l: DrainLabel)
    requires DrainEnabled(s, l) && CountsInv(s)
    ensures CountsInv(DrainStep(s, l))
  {
  }

  lemma SendCommand(s: State, l: SendLabel, c: Command)
    requires SendEnabled(s, l) && CommandInv(s, c) && PcInv(s)
    ensures CommandInv(SendNext(s, l), c)
  {
  }

  lemma FinishCommand(s: State, l: FinishLabel, c: Command)
    requires FinishEnabled(s, l) && CommandInv(s, c)
    ensures CommandInv(FinishNext(s, l), c)
  {
    if s.replies != [] {
      HeadOut(s.replies, c);
    }
  }

  lemma WorkCommand(s: State, l: WorkLabel, c: Command)
    requires WorkEnabled(s, l) && CommandInv(s, c) && PcInv(s)
    ensures CommandInv(WorkNext(s, l), c)
  {
    if l.Receive? {
      ReceiveCommand(s, c);
    }
  }

  lemma ReceiveCommand(s: State, c: Command)
    requires WorkEnabled(s, Receive) && CommandInv(s, c) && PcInv(s)
    ensures CommandInv(WorkNext(s, Receive), c)
  {
    HeadOut(s.queue, c);
  }

  lemma AnswerCommand(s: State, l: AnswerLabel, c: Command)
    requires AnswerEnabled(s, l) && CommandInv(s, c)
    ensures CommandInv(AnswerNext(s, l), c)
  {
  }

  lemma DrainCommand(s: State, l: DrainLabel, c: Command)
    requires DrainEnabled(s, l) && CommandInv(s, c) && PcInv(s)
    ensures CommandInv(DrainStep(s, l), c)
  {
    if l.DrainNext? {
      HeadOut(s.queue, c);
    }
  }

  // The gate: once a reason to refuse was seen, the counter it reads last is positive.
  lemma GateRefuses(s: State, l: GateLabel)
    requires GateEnabled(s, l) && GateInv(s) && AdmissionsInv(s) && PcInv(s) && B.Invariant(s.bridge)
    ensures GateInv(s.(node := GateNext(s, l)))
  {
    if l.LoadCalls? && s.node.blocked {
      var c :| c in s.bridge.calls && Unsettled(s.bridge, c);
      assert c in B.Dependents(s.bridge.calls);
    }
  }

  lemma SendGate(s: State, l: SendLabel)
    requires SendEnabled(s, l) && GateInv(s)
    ensures GateInv(SendNext(s, l))
  {
  }

  lemma FinishGate(s: State, l: FinishLabel)
    requires FinishEnabled(s, l) && GateInv(s)
    ensures GateInv(FinishNext(s, l))
  {
  }

  lemma WorkGate(s: State, l: WorkLabel)
    requires WorkEnabled(s, l) && GateInv(s)
    ensures GateInv(WorkNext(s, l))
  {
  }

  lemma AnswerGate(s: State, l: AnswerLabel)
    requires AnswerEnabled(s, l) && GateInv(s)
    ensures GateInv(AnswerNext(s, l))
  {
  }

  lemma DrainGate(s: State, l: DrainLabel)
    requires DrainEnabled(s, l) && GateInv(s)
    ensures GateInv(DrainStep(s, l))
  {
  }

  // Owner actions on the bridge settle nothing that waits for Node.
  lemma OwnerLeavesUnsettled(b: B.State, a: B.Label)
    requires B.Invariant(b) && B.Enabled(b, a) && B.OwnerLabel(a)
    ensures AwaitsNode(b) ==> AwaitsNode(B.Next(b, a))
  {
    if AwaitsNode(b) {
      var c :| c in b.calls && Unsettled(b, c);
      B.OnlySubjectChanges(b, a);
      assert Unsettled(B.Next(b, a), c);
    }
  }

  // The gate's flag ends up agreeing with what it reads.
  lemma BridgeGate(s: State, a: B.Label)
    requires BridgeEnabled(s, a) && GateInv(s) && B.Invariant(s.bridge)
    ensures GateInv(s.(bridge := B.Next(s.bridge, a)))
  {
    if B.OwnerLabel(a) {
      OwnerLeavesUnsettled(s.bridge, a);
    }
  }

  // The part of the invariant each kind of action keeps, for one kind at a time.
  lemma CommandsKept(s: State, l: Label)
    requires Enabled(s, l) && PcInv(s) && (forall c: Command :: CommandInv(s, c))
    ensures forall c: Command :: CommandInv(Next(s, l), c)
  {
    forall c: Command ensures CommandInv(Next(s, l), c) {
      assert CommandInv(s, c);
      match l
      case Gate(_) =>
      case Send(d) => SendCommand(s, d, c);
      case Finish(f) => FinishCommand(s, f, c);
      case Work(w) => WorkCommand(s, w, c);
      case Answer(a) => AnswerCommand(s, a, c);
      case Drain(d) => DrainCommand(s, d, c);
      case Bridge(_) =>
    }
  }

  lemma CountsKept(s: State, l: Label)
    requires Enabled(s, l) && CountsInv(s)
    ensures CountsInv(Next(s, l))
  {
    match l
    case Gate(g) => GateCounts(s, g);
    case Send(d) => SendCounts(s, d);
    case Finish(f) => FinishCounts(s, f);
    case Work(w) => WorkCounts(s, w);
    case Answer(a) => AnswerCounts(s, a);
    case Drain(d) => DrainCounts(s, d);
    case Bridge(_) =>
  }

  lemma GateKept(s: State, l: Label)
    requires Enabled(s, l) && GateInv(s) && AdmissionsInv(s) && PcInv(s) && B.Invariant(s.bridge)
    ensures GateInv(Next(s, l))
  {
    match l
    case Gate(g) => GateRefuses(s, g);
    case Send(d) => SendGate(s, d);
    case Finish(f) => FinishGate(s, f);
    case Work(w) => WorkGate(s, w);
    case Answer(a) => AnswerGate(s, a);
    case Drain(d) => DrainGate(s, d);
    case Bridge(b) => BridgeGate(s, b);
  }

  lemma WorkActivity(s: State, l: WorkLabel)
    requires WorkEnabled(s, l) && ActivityInv(s) && PcInv(s)
    ensures ActivityInv(WorkNext(s, l))
  {
  }

  lemma AnswerActivity(s: State, l: AnswerLabel)
    requires AnswerEnabled(s, l) && ActivityInv(s)
    ensures ActivityInv(AnswerNext(s, l))
  {
  }

  lemma GateActivity(s: State, l: GateLabel)
    requires GateEnabled(s, l) && ActivityInv(s)
    ensures ActivityInv(s.(node := GateNext(s, l)))
  {
  }

  lemma SendActivity(s: State, l: SendLabel)
    requires SendEnabled(s, l) && ActivityInv(s)
    ensures ActivityInv(SendNext(s, l))
  {
  }

  lemma FinishActivity(s: State, l: FinishLabel)
    requires FinishEnabled(s, l) && ActivityInv(s)
    ensures ActivityInv(FinishNext(s, l))
  {
  }

  lemma DrainActivity(s: State, l: DrainLabel)
    requires DrainEnabled(s, l) && ActivityInv(s)
    ensures ActivityInv(DrainStep(s, l))
  {
  }

  // Once shut down, the bridge stays so.
  lemma BridgeActivity(s: State, a: B.Label)
    requires BridgeEnabled(s, a) && ActivityInv(s)
    ensures ActivityInv(s.(bridge := B.Next(s.bridge, a)))
  {
    assert s.bridge.refs.released ==> B.Next(s.bridge, a).refs.released;
  }

  lemma ActivityKept(s: State, l: Label)
    requires Enabled(s, l) && ActivityInv(s) && PcInv(s)
    ensures ActivityInv(Next(s, l))
  {
    match l
    case Gate(g) => GateActivity(s, g);
    case Send(d) => SendActivity(s, d);
    case Finish(f) => FinishActivity(s, f);
    case Work(w) => WorkActivity(s, w);
    case Answer(a) => AnswerActivity(s, a);
    case Drain(d) => DrainActivity(s, d);
    case Bridge(b) => BridgeActivity(s, b);
  }

  lemma BridgeUntouched(s: State, l: Label)
    requires Enabled(s, l) && !l.Bridge?
    ensures Next(s, l).bridge == s.bridge
  {
    match l
    case Gate(_) =>
    case Send(d) => assert SendNext(s, d).bridge == s.bridge;
    case Finish(f) => assert FinishNext(s, f).bridge == s.bridge;
    case Work(w) => assert WorkNext(s, w).bridge == s.bridge;
    case Answer(a) => assert AnswerNext(s, a).bridge == s.bridge;
    case Drain(d) => assert DrainStep(s, d).bridge == s.bridge;
  }

  lemma StepKeeps(s: State, l: Label)
    requires Invariant(s) && Enabled(s, l)
    ensures Invariant(Next(s, l))
  {
    CommandsKept(s, l);
    CountsKept(s, l);
    GateKept(s, l);
    ActivityKept(s, l);
    if l.Bridge? {
      B.StepKeeps(s.bridge, l.bridge);
    } else {
      BridgeUntouched(s, l);
    }
  }

  // ---------------------------------------------------------------------
  // Runs
  // ---------------------------------------------------------------------

  predicate Run(s: State, ls: seq<Label>)
    decreases |ls|
  {
    ls == [] || (Enabled(s, ls[0]) && Run(Next(s, ls[0]), ls[1..]))
  }

  function After(s: State, ls: seq<Label>): State
    requires Run(s, ls)
    decreases |ls|
  {
    if ls == [] then s else After(Next(s, ls[0]), ls[1..])
  }

  lemma {:induction false} RunKeeps(s: State, ls: seq<Label>)
    requires Invariant(s) && Run(s, ls)
    ensures Invariant(After(s, ls))
    decreases |ls|
  {
    if ls != [] {
      StepKeeps(s, ls[0]);
      RunKeeps(Next(s, ls[0]), ls[1..]);
    }
  }

  lemma InitialInvariant(capacity: nat)
    ensures Invariant(Initial(capacity))
  {
  }

  lemma Reached(capacity: nat, ls: seq<Label>)
    requires Run(Initial(capacity), ls)
    ensures Invariant(After(Initial(capacity), ls))
  {
    InitialInvariant(capacity);
    RunKeeps(Initial(capacity), ls);
  }

  predicate ByOwner(l: Label) {
    l.Work? || l.Answer? || l.Drain?
  }

  // An action of the owner that needs no answer from Node and no deadline or cancellation.
  predicate Unaided(l: Label) {
    ByOwner(l) && !(l.Work? && (l.work.WaitAnswered? || l.work.WaitInterrupted?))
  }

  // No owner panic and no refused completion call.
  predicate Quiet(l: Label) {
    !(l.Answer? && (l.answer.CommandPanics? || l.answer.OwnerPanics? || l.answer.ReplyFails?))
    && !(l.Drain? && l.drain.DrainReplyFails?)
  }

  ghost predicate SameFate(s: State, t: State) {
    t.panicked == s.panicked && t.history.failed == s.history.failed
  }

  lemma QuietWork(s: State, l: WorkLabel)
    requires WorkEnabled(s, l)
    ensures SameFate(s, WorkNext(s, l))
  {
    if !l.Receive? {
      WorkKeepsHand(s, l);
    }
  }

  lemma QuietAnswer(s: State, l: AnswerLabel)
    requires AnswerEnabled(s, l) && Quiet(Answer(l))
    ensures SameFate(s, AnswerNext(s, l))
  {
  }

  lemma QuietDrain(s: State, l: DrainLabel)
    requires DrainEnabled(s, l) && Quiet(Drain(l))
    ensures SameFate(s, DrainStep(s, l))
  {
  }

  lemma QuietNode(s: State, l: Label)
    requires Enabled(s, l) && (l.Send? || l.Finish?)
    ensures SameFate(s, Next(s, l))
  {
    match l
    case Send(d) => assert SameFate(s, SendNext(s, d));
    case Finish(f) => assert SameFate(s, FinishNext(s, f));
  }

  lemma QuietStep(s: State, l: Label)
    requires Enabled(s, l) && Quiet(l)
    ensures SameFate(s, Next(s, l))
  {
    match l
    case Gate(_) =>
    case Bridge(_) =>
    case Work(w) => QuietWork(s, w);
    case Answer(a) => QuietAnswer(s, a);
    case Drain(d) => QuietDrain(s, d);
    case _ => QuietNode(s, l);
  }

  lemma {:induction false} QuietRun(s: State, ls: seq<Label>)
    requires Run(s, ls) && forall l | l in ls :: Quiet(l)
    ensures SameFate(s, After(s, ls))
    decreases |ls|
  {
    if ls != [] {
      QuietStep(s, ls[0]);
      QuietRun(Next(s, ls[0]), ls[1..]);
    }
  }

  // ---------------------------------------------------------------------
  // Theorems
  // ---------------------------------------------------------------------

  // In every state of every run, panics included, the counter bounds everything
  // in flight; so the bounded channel never refuses a reserved command as full,
  // and the owner's blocking enqueue always finds room.
  lemma QueuesNeverFull(capacity: nat, ls: seq<Label>)
    requires Run(Initial(capacity), ls)
    ensures var s := After(Initial(capacity), ls);
            && |s.queue| + Bit(s.owner.hand.Some?) + |s.replies| + Bit(s.node.pc.Completing?) <= s.pending <= s.capacity
            && (s.node.pc.Sending? ==> |s.queue| < s.capacity)
            && (s.owner.pc.Replying? ==> Enabled(s, Answer(Reply)))
            && (s.owner.pc.DrainReplying? ==> Enabled(s, Drain(DrainReply)))
  {
    Reached(capacity, ls);
  }

  // Every command is completed at most once, whatever happens; and a command
  // that was accepted is never forgotten unless the owner panicked.
  lemma CompletedAtMostOnce(capacity: nat, ls: seq<Label>, c: Command)
    requires Run(Initial(capacity), ls)
    ensures var s := After(Initial(capacity), ls);
            && s.history.completed[c] + s.history.failed[c] + s.history.lost[c] <= 1
            && (c in s.history.accepted ==>
                  c in s.queue || s.owner.hand == Some(c) || c in s.history.completed || c in s.history.failed
                      || c in s.history.lost)
            && (c !in s.history.accepted ==> c !in s.history.completed && c !in s.replies)
            && (!s.panicked ==> c !in s.history.lost)
  {
    Reached(capacity, ls);
    var s := After(Initial(capacity), ls);
    assert CommandInv(s, c);
  }

  lemma NothingElsewhere(s: State, c: Command)
    requires CommandInv(s, c) && PcInv(s) && CloseInv(s)
    requires s.owner.pc.Gone? && !s.panicked && s.history.failed == multiset{}
    ensures s.history.completed[c] == Bit(c in s.history.accepted)
  {
  }

  lemma NothingLeft(s: State)
    requires (forall c: Command :: CommandInv(s, c)) && PcInv(s) && CloseInv(s)
    requires s.owner.pc.Gone? && !s.panicked && s.history.failed == multiset{}
    ensures s.history.completed == multiset(s.history.accepted) && s.queue == []
  {
    forall c: Command ensures s.history.completed[c] == Bit(c in s.history.accepted) {
      NothingElsewhere(s, c);
    }
  }

  lemma JoinedHasAll(s: State)
    requires Invariant(s) && s.owner.pc.Gone? && !s.panicked && s.history.failed == multiset{}
    ensures s.history.completed == multiset(s.history.accepted) && s.queue == []
  {
    NothingLeft(s);
  }

  // When dispose returns from the join, every accepted command has had its reply
  // enqueued exactly once: it ran, was cancelled or was drained after close.
  lemma DisposeCompletesEverything(capacity: nat, ls: seq<Label>)
    requires Run(Initial(capacity), ls) && (forall l | l in ls :: Quiet(l))
    requires Enabled(After(Initial(capacity), ls), Finish(Join))
    ensures var s := After(Initial(capacity), ls);
            s.history.completed == multiset(s.history.accepted) && s.queue == []
  {
    Reached(capacity, ls);
    QuietRun(Initial(capacity), ls);
    JoinedHasAll(After(Initial(capacity), ls));
  }

  lemma PlacesAtEnd(s: State, c: Command)
    requires Invariant(s) && FinishEnabled(s, Join)
    ensures var h := s.history;
            && h.completed[c] + h.failed[c] + h.lost[c] == Bit(c in h.accepted)
            && (h.completed[c] == 1 <==> c in h.accepted && c !in h.failed && c !in h.lost)
  {
    assert CommandInv(s, c);
  }

  // In any run, panics and refused completions included, a command that was accepted
  // by the time of the join is answered once, unless a panic or a refusal took it.
  lemma DisposeAccounts(capacity: nat, ls: seq<Label>, c: Command)
    requires Run(Initial(capacity), ls) && Enabled(After(Initial(capacity), ls), Finish(Join))
    ensures var h := After(Initial(capacity), ls).history;
            && h.completed[c] + h.failed[c] + h.lost[c] == Bit(c in h.accepted)
            && (h.completed[c] == 1 <==> c in h.accepted && c !in h.failed && c !in h.lost)
  {
    Reached(capacity, ls);
    PlacesAtEnd(After(Initial(capacity), ls), c);
  }

  lemma TokenMeans(s: State, c: Command)
    requires TokenInv(s, c)
    ensures c in s.tokens <==>
            s.node.sending == Some(c) || c in s.queue || s.owner.hand == Some(c) || c in s.replies
                || c in s.history.lost
  {
    assert c in s.queue <==> multiset(s.queue)[c] > 0;
    assert c in s.replies <==> multiset(s.replies)[c] > 0;
  }

  // A cancellation finds the token of every command that is being sent, queued, executed or not
  // yet delivered, and of no other except those a panic dropped.
  lemma TokensExact(capacity: nat, ls: seq<Label>, c: Command)
    requires Run(Initial(capacity), ls)
    ensures var s := After(Initial(capacity), ls);
            c in s.tokens <==>
            s.node.sending == Some(c) || c in s.queue || s.owner.hand == Some(c) || c in s.replies
                || c in s.history.lost
  {
    Reached(capacity, ls);
    assert CommandInv(After(Initial(capacity), ls), c);
    TokenMeans(After(Initial(capacity), ls), c);
  }

  // The two counters are exact: guest admissions count the Run commands that
  // have not finished, and the dependency counter the unreleased leases. The
  // activity flag lags behind an execution only where a poll may have begun it.
  lemma CountersExact(capacity: nat, ls: seq<Label>)
    requires Run(Initial(capacity), ls)
    ensures var s := After(Initial(capacity), ls);
            && s.admissions == Bit(s.node.lease) + Runs(s.queue) + Bit(s.owner.lease)
            && s.bridge.deps == |B.Dependents(s.bridge.calls)|
            && (s.owner.pc.Executing? && s.owner.lease ==> s.admissions > 0)
            && (s.executing && !s.active ==> !Announced(s.owner))
            && (Settled(s.owner) ==> s.active == s.executing)
  {
    Reached(capacity, ls);
  }

  lemma GateSees(s: State)
    requires AdmissionsInv(s) && PcInv(s) && ActivityInv(s) && GateInv(s)
    ensures s.node.pc.ReadClosed? || s.node.pc.Reserving? ==> !s.node.blocked
    ensures s.node.pc.ReadAdmissions? && RunUnfinished(s) && AwaitsNode(s.bridge) ==>
              GateNext(s, LoadAdmissions).blocked && GateNext(s, LoadAdmissions).admitted
    ensures s.node.pc.ReadActive? && s.executing && Announced(s.owner) && AwaitsNode(s.bridge) ==>
              GateNext(s, LoadActive).blocked
  {
  }

  // A submit whose gate ran while a Run was unfinished, or with activity announced,
  // and some host call of any run unsettled, never gets as far as a reservation.
  lemma ReentrantSubmitRefused(capacity: nat, ls: seq<Label>)
    requires Run(Initial(capacity), ls)
    ensures var s := After(Initial(capacity), ls);
            && (s.node.pc.ReadClosed? || s.node.pc.Reserving? ==> !s.node.blocked)
            && (s.node.pc.ReadAdmissions? && RunUnfinished(s) && AwaitsNode(s.bridge) ==>
                  GateNext(s, LoadAdmissions).blocked && GateNext(s, LoadAdmissions).admitted)
            && (s.node.pc.ReadActive? && s.executing && Announced(s.owner) && AwaitsNode(s.bridge) ==>
                  GateNext(s, LoadActive).blocked)
  {
    Reached(capacity, ls);
    GateSees(After(Initial(capacity), ls));
  }

  // ---------------------------------------------------------------------
  // What the gate decides when nothing interferes, and the gap it leaves
  // ---------------------------------------------------------------------

  predicate InGate(n: Node) {
    n.pc.Pruning? || n.pc.ReadAdmissions? || n.pc.ReadWaiting? || n.pc.ReadActive? || n.pc.ReadCalls?
        || n.pc.ReadClosed?
  }

  // Whether a submit that has come this far will be let through.
  predicate Passes(s: State)
    requires InGate(s.node)
  {
    && !s.closed
    && match s.node.pc
       case ReadClosed => true
       case ReadCalls => s.bridge.deps == 0
       case ReadActive => s.active ==> s.bridge.deps == 0
       case ReadWaiting => s.waiting == 0 && (s.node.admitted || s.active ==> s.bridge.deps == 0)
       case _ => s.waiting == 0 && (s.admissions > 0 || s.active ==> s.bridge.deps == 0)
  }

  function Remaining(n: Node): nat {
    match n.pc
    case Pruning => 5
    case ReadAdmissions => 4
    case ReadWaiting => 3
    case ReadActive => 2
    case ReadCalls => 1
    case _ => 0
  }

  // What one load does for the decision that is due.
  predicate Nearer(s: State, g: GateLabel)
    requires InGate(s.node) && GateEnabled(s, g)
  {
    var t := s.(node := GateNext(s, g));
    if InGate(t.node) then Passes(t) == Passes(s) && Remaining(t.node) < Remaining(s.node)
    else t.node.pc == if Passes(s) then Reserving else Idle
  }

  lemma FirstLoads(s: State) returns (g: GateLabel)
    requires s.node.pc.Pruning? || s.node.pc.ReadAdmissions? || s.node.pc.ReadWaiting?
    ensures GateEnabled(s, g) && Nearer(s, g)
  {
    match s.node.pc
    case Pruning => g := PruneDone;
    case ReadAdmissions => g := LoadAdmissions;
    case ReadWaiting => g := LoadWaiting;
  }

  lemma LastLoads(s: State) returns (g: GateLabel)
    requires (s.node.pc.ReadActive? || s.node.pc.ReadCalls? || s.node.pc.ReadClosed?) && s.bridge.deps >= 0
    ensures GateEnabled(s, g) && Nearer(s, g)
  {
    match s.node.pc
    case ReadActive => g := LoadActive;
    case ReadCalls => g := LoadCalls;
    case ReadClosed => g := LoadClosed;
  }

  lemma GateAdvances(s: State) returns (g: GateLabel)
    requires InGate(s.node) && s.bridge.deps >= 0
    ensures GateEnabled(s, g) && Nearer(s, g)
  {
    if s.node.pc.Pruning? || s.node.pc.ReadAdmissions? || s.node.pc.ReadWaiting? {
      g := FirstLoads(s);
    } else {
      g := LastLoads(s);
    }
  }

  // The rest of the gate, run without interference.
  lemma {:induction false} GateEnds(s: State) returns (ls: seq<Label>, n: Node)
    requires InGate(s.node) && s.bridge.deps >= 0
    ensures Run(s, ls) && After(s, ls) == s.(node := n) && (forall l | l in ls :: l.Gate?)
    ensures n.pc == if Passes(s) then Reserving else Idle
    decreases Remaining(s.node)
  {
    var g := GateAdvances(s);
    n := GateNext(s, g);
    var rest: seq<Label> := [];
    if InGate(n) {
      rest, n := GateEnds(s.(node := n));
    }
    ls := [Gate(g)] + rest;
    assert ls[0] == Gate(g) && ls[1..] == rest && Next(s, ls[0]) == s.(node := GateNext(s, g));
  }

  // A submit that meets no interference is let through exactly when the session is
  // open, the owner does not wait for Node, and there is no unfinished guest
  // admission or announced activity together with a held dependency.
  lemma GateDecides(s: State, run: bool) returns (ls: seq<Label>)
    requires s.node.pc.Idle? && s.bridge.deps >= 0
    ensures Run(s, [Gate(Submit(run))] + ls) && (forall l | l in ls :: l.Gate?)
    ensures var e := After(s, [Gate(Submit(run))] + ls);
            && e == s.(node := e.node)
            && e.node.pc == if !s.closed && s.waiting == 0 && (s.bridge.deps == 0 || (s.admissions <= 0 && !s.active))
                            then Reserving else Idle
  {
    var n;
    ls, n := GateEnds(s.(node := GateNext(s, Submit(run))));
    assert ([Gate(Submit(run))] + ls)[1..] == ls;
  }

  lemma AwaitedIsCounted(s: State)
    requires B.Invariant(s.bridge) && AwaitsNode(s.bridge)
    ensures s.bridge.deps > 0
  {
    var c :| c in s.bridge.calls && Unsettled(s.bridge, c);
    assert c in B.Dependents(s.bridge.calls);
  }

  // In any reachable state with a live execution and an unsettled host call, such a
  // submit is let through exactly when a poll began the execution unannounced, no
  // Run is unfinished, and the owner is not blocked in a wait.
  lemma GapExactly(s: State, run: bool) returns (ls: seq<Label>)
    requires Invariant(s) && s.node.pc.Idle? && s.executing && AwaitsNode(s.bridge)
    ensures Run(s, [Gate(Submit(run))] + ls) && (forall l | l in ls :: l.Gate?)
    ensures After(s, [Gate(Submit(run))] + ls).node.pc.Reserving?
            <==> !s.closed && s.waiting == 0 && !RunUnfinished(s) && !s.active
    ensures !RunUnfinished(s) && !s.active ==> !Announced(s.owner)
  {
    AwaitedIsCounted(s);
    ls := GateDecides(s, run);
  }

  // A Run that is received can be executed, announced before it begins.
  lemma RunCanBegin(s: State)
    requires s.owner.pc.Executing? && s.owner.lease
    ensures Run(s, [Work(StartRun), Work(ExecutionBegins)])
    ensures var t := After(s, [Work(StartRun), Work(ExecutionBegins)]); t.executing && t.active
  {
    var ls := [Work(StartRun), Work(ExecutionBegins)];
    assert ls[1..] == [Work(ExecutionBegins)] && ls[1..][1..] == [];
    assert Run(Next(Next(s, ls[0]), ls[1]), []);
  }

  // ---------------------------------------------------------------------
  // The join in dispose
  // ---------------------------------------------------------------------

  // How far the owner is from having left its loop and drained the channel.
  function Distance(s: State): nat {
    s.waiting + 3 * |s.queue| +
    match s.owner.pc
    case Gone => 0
    case Exiting => 1
    case Draining => 2
    case DrainUnleasing => 3
    case DrainReplying => 4
    case Loop => 3
    case Parked => 4
    case Polling => 4
    case Replying => 5
    case Unleasing => 6
    case Retiring => 7
    case Executing => 8
    case Receiving => if s.queue == [] then 5 else 9
    case Syncing => 10
  }

  // The next step of the owner, which needs nothing from Node.
  lemma OwnWork(s: State) returns (w: WorkLabel)
    requires s.closed && ActivityInv(s) && s.bridge.refs.released
    requires s.owner.pc.Loop? || s.owner.pc.Syncing? || s.owner.pc.Receiving? || s.owner.pc.Executing?
             || s.owner.pc.Retiring? || s.owner.pc.Polling? || s.owner.pc.Parked?
    ensures WorkEnabled(s, w) && !w.WaitAnswered? && !w.WaitInterrupted?
    ensures WorkNext(s, w).closed && WorkNext(s, w).node == s.node && Distance(WorkNext(s, w)) < Distance(s)
  {
    if s.waiting > 0 {
      return WaitCut;
    }
    match s.owner.pc
    case Loop => w := CheckClosed;
    case Syncing => w := Sync;
    case Receiving => w := if s.queue == [] then ReceiveEmpty else Receive;
    case Executing => w := FinishExecution;
    case Retiring => w := Retire;
    case Polling => w := PollDone;
    case Parked => w := Wake;
  }

  lemma OwnAnswer(s: State) returns (a: AnswerLabel)
    requires SlotsInv(s) && PcInv(s) && s.closed
    requires s.owner.pc.Unleasing? || s.owner.pc.Replying?
    ensures AnswerEnabled(s, a)
    ensures AnswerNext(s, a).closed && AnswerNext(s, a).node == s.node && Distance(AnswerNext(s, a)) < Distance(s)
  {
    a := if s.owner.pc.Unleasing? then DropLease else Reply;
  }

  lemma OwnDrain(s: State) returns (d: DrainLabel)
    requires SlotsInv(s) && PcInv(s) && s.closed && Drains(s.owner) && !s.owner.pc.Gone?
    ensures DrainEnabled(s, d)
    ensures DrainStep(s, d).closed && DrainStep(s, d).node == s.node && Distance(DrainStep(s, d)) < Distance(s)
  {
    match s.owner.pc
    case Draining => d := if s.queue == [] then DrainEnd else DrainNext;
    case DrainReplying => d := DrainReply;
    case DrainUnleasing => d := DrainDrop;
    case Exiting => d := Exit;
  }

  lemma OwnWay(s: State) returns (l: Label)
    requires SlotsInv(s) && PcInv(s) && ActivityInv(s) && s.closed && s.node.pc.Joining? && !s.owner.pc.Gone?
    ensures Unaided(l) && Enabled(s, l)
    ensures Next(s, l).closed && Next(s, l).node == s.node && Distance(Next(s, l)) < Distance(s)
  {
    if Drains(s.owner) {
      var d := OwnDrain(s);
      l := Drain(d);
    } else if s.owner.pc.Unleasing? || s.owner.pc.Replying? {
      var a := OwnAnswer(s);
      l := Answer(a);
    } else {
      var w := OwnWork(s);
      l := Work(w);
    }
  }

  // While Node is blocked in the join it delivers no reply and answers no host call;
  // still the owner can reach its end on its own: the completion queue has room, and
  // every wait for Node is cut short because the bridge has been shut down.
  lemma JoinNeedsNoNode(s: State) returns (ls: seq<Label>)
    requires Invariant(s) && s.node.pc.Joining?
    ensures Run(s, ls) && (forall l | l in ls :: Unaided(l))
    ensures Enabled(After(s, ls), Finish(Join))
    decreases Distance(s)
  {
    if s.owner.pc.Gone? {
      ls := [];
    } else {
      var l := OwnWay(s);
      StepKeeps(s, l);
      var rest := JoinNeedsNoNode(Next(s, l));
      ls := [l] + rest;
      assert ls[0] == l && ls[1..] == rest;
    }
  }

  // ---------------------------------------------------------------------
  // Why the claim needs an owner that does not panic
  // ---------------------------------------------------------------------

  lemma {:induction false} RunSnoc(s: State, ls: seq<Label>, l: Label)
    requires Run(s, ls) && Enabled(After(s, ls), l)
    ensures Run(s, ls + [l]) && After(s, ls + [l]) == Next(After(s, ls), l)
    decreases |ls|
  {
    if ls == [] {
      assert Run(Next(s, l), []);
    } else {
      RunSnoc(Next(s, ls[0]), ls[1..], l);
      assert (ls + [l])[1..] == ls[1..] + [l];
    }
  }

  function AfterGate(): State {
    Initial(1).(node := IDLE.(pc := Reserving))
  }

  lemma IdleGateOpens() returns (ls: seq<Label>)
    ensures Run(Initial(1), ls) && After(Initial(1), ls) == AfterGate()
  {
    ls := [];
    RunSnoc(Initial(1), ls, Gate(Submit(false)));
    ls := ls + [Gate(Submit(false))];
    RunSnoc(Initial(1), ls, Gate(PruneDone));
    ls := ls + [Gate(PruneDone)];
    RunSnoc(Initial(1), ls, Gate(LoadAdmissions));
    ls := ls + [Gate(LoadAdmissions)];
    RunSnoc(Initial(1), ls, Gate(LoadWaiting));
    ls := ls + [Gate(LoadWaiting)];
    RunSnoc(Initial(1), ls, Gate(LoadActive));
    ls := ls + [Gate(LoadActive)];
    RunSnoc(Initial(1), ls, Gate(LoadClosed));
    ls := ls + [Gate(LoadClosed)];
  }

  lemma SubmitPrepares() returns (ls: seq<Label>)
    ensures Run(Initial(1), ls)
    ensures var s := After(Initial(1), ls);
            && s.node.pc.Sending? && s.node.sending == Some(Command(0, false)) && s.owner == Owner(Loop, None, false)
            && s.queue == [] && s.capacity == 1 && s.history == Initial(1).history
  {
    ls := IdleGateOpens();
    RunSnoc(Initial(1), ls, Send(Reserve));
    ls := ls + [Send(Reserve)];
    RunSnoc(Initial(1), ls, Send(Admit));
    ls := ls + [Send(Admit)];
    RunSnoc(Initial(1), ls, Send(Prepare));
    ls := ls + [Send(Prepare)];
  }

  // The owner panics while a submit is past the closed check; it drains an empty
  // channel, the command is then accepted, and the receiver is dropped with it.
  lemma PanicLosesCommand() returns (ls: seq<Label>)
    ensures Run(Initial(1), ls)
    ensures var s := After(Initial(1), ls); var c := Command(0, false);
            c in s.history.accepted && s.history.completed[c] == 0 && s.history.lost[c] == 1 && s.owner.pc.Gone?
  {
    ls := SubmitPrepares();
    RunSnoc(Initial(1), ls, Answer(OwnerPanics));
    ls := ls + [Answer(OwnerPanics)];
    RunSnoc(Initial(1), ls, Drain(DrainEnd));
    ls := ls + [Drain(DrainEnd)];
    RunSnoc(Initial(1), ls, Send(TrySend));
    ls := ls + [Send(TrySend)];
    RunSnoc(Initial(1), ls, Drain(Exit));
    ls := ls + [Drain(Exit)];
  }

  function Polled(): State {
    Initial(1).(owner := Owner(Polling, None, false), executing := true,
                bridge := B.INITIAL.(refs := B.AddReference(B.INITIAL.refs)))
  }

  // A poll begins an execution without announcing it.
  lemma PollBegins() returns (ls: seq<Label>)
    ensures Run(Initial(1), ls) && After(Initial(1), ls) == Polled()
  {
    ls := [];
    RunSnoc(Initial(1), ls, Bridge(B.Register));
    ls := ls + [Bridge(B.Register)];
    RunSnoc(Initial(1), ls, Work(CheckClosed));
    ls := ls + [Work(CheckClosed)];
    RunSnoc(Initial(1), ls, Work(Sync));
    ls := ls + [Work(Sync)];
    RunSnoc(Initial(1), ls, Work(ReceiveEmpty));
    ls := ls + [Work(ReceiveEmpty)];
    RunSnoc(Initial(1), ls, Work(ExecutionBegins));
    ls := ls + [Work(ExecutionBegins)];
  }

  // The three steps of a dispatch, on the bridge alone.
  lemma DispatchOnce(b: B.State)
    requires b == B.INITIAL.(refs := B.AddReference(B.INITIAL.refs))
    ensures B.Enabled(b, B.Begin(0))
    ensures var b1 := B.Next(b, B.Begin(0));
            B.Enabled(b1, B.Lease) && var b2 := B.Next(b1, B.Lease);
                                      B.Enabled(b2, B.Enqueue) && AwaitsNode(B.Next(b2, B.Enqueue))
  {
    var b2 := B.Next(B.Next(b, B.Begin(0)), B.Lease);
    assert Unsettled(B.Next(b2, B.Enqueue), 0);
  }

  // The guest code of that execution calls the host.
  lemma PollCallsHost() returns (ls: seq<Label>)
    ensures Run(Initial(1), ls)
    ensures var s := After(Initial(1), ls);
            s == Polled().(bridge := s.bridge) && AwaitsNode(s.bridge)
  {
    ls := PollBegins();
    DispatchOnce(Polled().bridge);
    RunSnoc(Initial(1), ls, Bridge(B.Begin(0)));
    ls := ls + [Bridge(B.Begin(0))];
    RunSnoc(Initial(1), ls, Bridge(B.Lease));
    ls := ls + [Bridge(B.Lease)];
    RunSnoc(Initial(1), ls, Bridge(B.Enqueue));
    ls := ls + [Bridge(B.Enqueue)];
  }

  lemma {:induction false} RunJoin(s: State, ls: seq<Label>, more: seq<Label>)
    requires Run(s, ls) && Run(After(s, ls), more)
    ensures Run(s, ls + more) && After(s, ls + more) == After(After(s, ls), more)
    decreases |ls|
  {
    if ls == [] {
      assert ls + more == more;
    } else {
      RunJoin(Next(s, ls[0]), ls[1..], more);
      assert (ls + more)[1..] == ls[1..] + more;
    }
  }

  // A submit gets past the gate while an execution is live and its host call unsettled.
  lemma PolledCallNotSeen() returns (ls: seq<Label>)
    ensures Run(Initial(1), ls)
    ensures var s := After(Initial(1), ls);
            s.node.pc.Reserving? && s.executing && AwaitsNode(s.bridge)
  {
    ls := PollCallsHost();
    Reached(1, ls);
    var s := After(Initial(1), ls);
    AwaitedIsCounted(s);
    var gate := GateDecides(s, false);
    RunJoin(Initial(1), ls, [Gate(Submit(false))] + gate);
    ls := ls + ([Gate(Submit(false))] + gate);
  }
}
