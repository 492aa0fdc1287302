/** When the device's queues close: each is closed once its count of writers is zero.
    The state lock is held through Up, Down and Close, so that these do not overlap; but
    their parts alternate with configuration, which may rebind, start, stop and remove
    peers, and with workers, receivers and the TUN reader coming to their ends. */
module QueueLifetime {
  import opened Bitwise
  import opened Options

  datatype DeviceState = Down | Up | Closed

  /** How far Close has come. */
  datatype Closing = Open | Begun | BindClosed | PeersRemoved | RefsDropped

  /** Which part of Up or Down comes next. */
  datatype Changing = Settled | Binding | Starting | Unbinding | Stopping

  /** A wait group's count must not go below zero: that it does not is proved, not built in. */
  datatype Queue = Queue(count: int, closed: bool)

  datatype State = State(
    cpus: nat, device: DeviceState, changing: Changing, closing: Closing,
    encryption: Queue, decryption: Queue, handshake: Queue,
    workers: nat,       // handshake workers, which write to the encryption queue
    reader: bool,       // the TUN reader, likewise
    receivers: nat,     // receive routines, which write to the other two
    peers: set<nat>, running: set<nat>)
  {
    /** The device holds a reference of its own to each queue until late in Close. */
    predicate HasRefs() {
      closing != RefsDropped
    }

    /** No Up, Down or Close is under way. */
    predicate Unlocked() {
      changing == Settled && (closing == Open || closing == RefsDropped)
    }

    /** Configuration can go on: Close is not under way. */
    predicate Configurable() {
      closing == Open || closing == RefsDropped
    }
  }

  function Plus(q: Queue, n: nat): Queue {
    q.(count := q.count + n)
  }

  function Minus(q: Queue, n: nat): Queue {
    q.(count := q.count - n)
  }

  function Start(cpus: nat): State {
    State(cpus, Down, Settled, Open, Queue(1 + cpus + 1, false), Queue(1, false), Queue(1, false), cpus, true, 0, {},
      {})
  }

  datatype Step =
    | NewPeer(p: nat)
    | BeginUp | BeginDown
    | BindUp(bound: bool, receivers: nat)   // the bind opened with so many receive functions, or failed to
    | StartPeers
    | Unbind
    | StopPeers
    | Rebind(bound: bool, receivers: nat)   // the same on request, whatever the state
    | StartPeer(p: nat)
    | StopPeer(p: nat)
    | RemovePeer(p: nat)
    | ReceiverExit | ReaderExit | WorkerExit
    | BeginClose | CloseBind | RemovePeers | DropRefs
    | CloseEncryption | CloseDecryption | CloseHandshake

  /** What a step waits for: locks, wait groups, and the end of a channel. */
  predicate Enabled(s: State, st: Step) {
    match st
    case NewPeer(p) => p !in s.peers && s.Configurable()
    case BeginUp => s.Unlocked()
    case BeginDown => s.Unlocked()
    case BindUp(_, _) => s.changing == Binding
    case StartPeers => s.changing == Starting && s.Configurable()
    case Unbind => s.changing == Unbinding
    case StopPeers => s.changing == Stopping
    case Rebind(_, _) => s.Configurable()
    case StartPeer(p) => p in s.peers
    case StopPeer(p) => p in s.peers
    case RemovePeer(p) => p in s.peers
    case ReceiverExit => s.receivers > 0
    case ReaderExit => s.reader
    case WorkerExit => s.workers > 0 && s.handshake.closed
    case BeginClose => s.closing == Open && s.changing == Settled
    case CloseBind => s.closing == Begun && s.receivers == 0
    case RemovePeers => s.closing == BindClosed
    case DropRefs => s.closing == PeersRemoved
    case CloseEncryption => s.encryption.count == 0
    case CloseDecryption => s.decryption.count == 0
    case CloseHandshake => s.handshake.count == 0
  }

  /** Peers that come to run, or cease to: each counts as a writer. */
  function Started(s: State, ps: set<nat>): State {
    s.(running := s.running + ps, encryption := Plus(s.encryption, |ps - s.running|))
  }

  function Stopped(s: State, ps: set<nat>): State {
    s.(running := s.running - ps, encryption := Minus(s.encryption, |ps * s.running|))
  }

  /** The bind is closed, and its receivers have ended. */
  function WithReceivers(s: State, n: nat): State {
    s.(receivers := n,
       decryption := Plus(Minus(s.decryption, s.receivers), n),
       handshake := Plus(Minus(s.handshake, s.receivers), n))
  }

  function After(s: State, st: Step): State
    requires Enabled(s, st)
  {
    match st
    case NewPeer(p) => if s.device == Closed then s else s.(peers := s.peers + {p})
    case BeginUp => if s.device != Down then s else s.(device := Up, changing := Binding)
    case BeginDown => if s.device != Up then s else s.(device := Down, changing := Unbinding)
    case BindUp(bound, n) =>
      if bound then WithReceivers(s, n).(changing := Starting)
      else WithReceivers(s, 0).(device := Down, changing := Unbinding)
    case StartPeers => Started(s, s.peers).(changing := Settled)
    case Unbind => WithReceivers(s, 0).(changing := Stopping)
    case StopPeers => Stopped(s, s.running).(changing := Settled)
    case Rebind(bound, n) => WithReceivers(s, if s.device == Up && bound then n else 0)
    case StartPeer(p) => if s.device == Closed then s else Started(s, {p})
    case StopPeer(p) => Stopped(s, {p})
    case RemovePeer(p) => Stopped(s, {p}).(peers := s.peers - {p})
    case ReceiverExit => s.(receivers := s.receivers - 1, decryption := Minus(s.decryption, 1),
      handshake := Minus(s.handshake, 1))
    case ReaderExit => s.(reader := false, encryption := Minus(s.encryption, 1))
    case WorkerExit => s.(workers := s.workers - 1, encryption := Minus(s.encryption, 1))
    case BeginClose => s.(device := Closed, closing := Begun)
    case CloseBind => s.(closing := BindClosed)
    case RemovePeers => Stopped(s, s.running).(peers := {}, closing := PeersRemoved)
    case DropRefs =>
      s.(closing := RefsDropped, encryption := Minus(s.encryption, 1), decryption := Minus(s.decryption, 1),
        handshake := Minus(s.handshake, 1))
    case CloseEncryption => s.(encryption := s.encryption.(closed := true))
    case CloseDecryption => s.(decryption := s.decryption.(closed := true))
    case CloseHandshake => s.(handshake := s.handshake.(closed := true))
  }

  /** The counts are the writers. */
  ghost predicate Counted(s: State) {
    && s.encryption.count == Digit(s.HasRefs()) + s.workers + Digit(s.reader) + |s.running|
    && s.decryption.count == Digit(s.HasRefs()) + s.receivers
    && s.handshake.count == Digit(s.HasRefs()) + s.receivers
  }

  /** A closed queue has no writers, and gets none again. */
  ghost predicate Inv(s: State) {
    && Counted(s)
    && (s.encryption.closed ==> s.encryption.count == 0) && (s.decryption.closed ==> s.decryption.count == 0)
    && (s.handshake.closed ==> s.handshake.count == 0)
    && (s.device == Closed <==> s.closing != Open) && (s.closing != Open ==> s.changing == Settled)
    && (s.changing == Binding || s.changing == Starting ==> s.device == Up)
    && (s.changing == Unbinding || s.changing == Stopping ==> s.device == Down)
    && (s.closing == BindClosed || s.closing == PeersRemoved || s.closing == RefsDropped ==> s.receivers == 0)
    && (s.closing == PeersRemoved || s.closing == RefsDropped ==> s.peers == {} && s.running == {})
    && (s.device == Down && s.changing != Unbinding ==> s.receivers == 0)
    && s.running <= s.peers && s.workers <= s.cpus && (s.workers < s.cpus ==> s.handshake.closed)
  }

  lemma StartedCounted(s: State, ps: set<nat>)
    requires Counted(s)
    ensures Counted(Started(s, ps))
  {
    assert s.running + ps == s.running + (ps - s.running);
  }

  lemma StoppedCounted(s: State, ps: set<nat>)
    requires Counted(s)
    ensures Counted(Stopped(s, ps)) && Stopped(s, ps).closing == s.closing
  {
    assert s.running == (s.running - ps) + (ps * s.running);
  }

  lemma StepCounted(s: State, st: Step)
    requires Counted(s) && Enabled(s, st)
    ensures Counted(After(s, st))
  {
    hide Started, Stopped;
    match st {
      case StartPeers => StartedCounted(s, s.peers);
      case StopPeers => StoppedCounted(s, s.running);
      case StartPeer(p) => StartedCounted(s, {p});
      case StopPeer(p) => StoppedCounted(s, {p});
      case RemovePeer(p) => StoppedCounted(s, {p});
      case RemovePeers => StoppedCounted(s, s.running);
      case _ =>
    }
  }

  lemma StepInv(s: State, st: Step)
    requires Inv(s) && Enabled(s, st)
    ensures Inv(After(s, st)) && After(s, st).cpus == s.cpus
    ensures s.device == Closed ==> After(s, st).device == Closed
  {
    StepCounted(s, st);
  }

  /** A count is added to only while it is above zero: no queue is revived. */
  lemma NoRevival(s: State, st: Step)
    requires Inv(s) && Enabled(s, st)
    ensures After(s, st).encryption.count > s.encryption.count ==> s.encryption.count > 0
    ensures After(s, st).decryption.count > s.decryption.count ==> s.decryption.count > 0
    ensures After(s, st).handshake.count > s.handshake.count ==> s.handshake.count > 0
    ensures s.encryption.closed ==> After(s, st).encryption.closed
    ensures s.decryption.closed ==> After(s, st).decryption.closed
    ensures s.handshake.closed ==> After(s, st).handshake.closed
  {
    match st {
      case StartPeers => StartedCounted(s, s.peers);
      case StopPeers => StoppedCounted(s, s.running);
      case StartPeer(p) => StartedCounted(s, {p});
      case _ =>
    }
  }

  /** The encryption queue closes last of all that writes to it: after the handshake
      queue, after every peer has stopped, after the reader has gone; and while a
      queue is closed nobody is left who could write to it. */
  lemma EncryptionClosesLast(s: State)
    requires Inv(s) && s.cpus > 0
    ensures s.encryption.closed ==>
      s.handshake.closed && s.running == {} && !s.reader && s.workers == 0 && s.device == Closed
        && s.closing == RefsDropped
    ensures s.decryption.closed || s.handshake.closed ==> s.receivers == 0 && s.closing == RefsDropped
  {
  }

  ghost predicate IsRun(s: State, run: seq<Step>)
    decreases |run|
  {
    run != [] ==> Enabled(s, run[0]) && IsRun(After(s, run[0]), run[1..])
  }

  ghost function Final(s: State, run: seq<Step>): State
    requires IsRun(s, run)
    decreases |run|
  {
    if run == [] then s else Final(After(s, run[0]), run[1..])
  }

  /** In every state of every run the counts are those of the writers, and so never
      negative; Closed is for good. */
  lemma {:induction false} Lifetime(s: State, run: seq<Step>)
    requires Inv(s) && IsRun(s, run)
    ensures Inv(Final(s, run)) && Final(s, run).cpus == s.cpus
    ensures s.device == Closed ==> Final(s, run).device == Closed
    decreases |run|
  {
    if run != [] {
      StepInv(s, run[0]);
      Lifetime(After(s, run[0]), run[1..]);
    }
  }

  lemma StartInv(cpus: nat)
    ensures Inv(Start(cpus))
  {
  }

  lemma LifetimeFromStart(cpus: nat, run: seq<Step>)
    requires IsRun(Start(cpus), run)
    ensures Inv(Final(Start(cpus), run)) && Final(Start(cpus), run).cpus == cpus
  {
    hide Inv;
    StartInv(cpus);
    Lifetime(Start(cpus), run);
  }

  // ----- what Up, Down, removal and Close come to, whatever comes between

  /** The state before step i of a run. */
  ghost function StateAt(s: State, run: seq<Step>, i: nat): State
    requires IsRun(s, run) && i <= |run|
    decreases i
  {
    if i == 0 then s else StateAt(After(s, run[0]), run[1..], i - 1)
  }

  lemma {:induction false} StateNext(s: State, run: seq<Step>, i: nat)
    requires Inv(s) && IsRun(s, run) && i < |run|
    ensures var t := StateAt(s, run, i);
      Inv(t) && Enabled(t, run[i]) && StateAt(s, run, i + 1) == After(t, run[i])
    decreases i
  {
    if i > 0 {
      StepInv(s, run[0]);
      StateNext(After(s, run[0]), run[1..], i - 1);
    }
  }

  lemma {:induction false} StateLast(s: State, run: seq<Step>)
    requires IsRun(s, run)
    ensures StateAt(s, run, |run|) == Final(s, run)
    decreases |run|
  {
    if run != [] {
      StateLast(After(s, run[0]), run[1..]);
    }
  }

  predicate MayStart(st: Step, p: nat) {
    st == StartPeer(p) || st == StartPeers
  }

  predicate MayStop(st: Step, p: nat) {
    st == StopPeer(p) || st == RemovePeer(p) || st == StopPeers || st == RemovePeers
  }

  /** Between two states of a run a peer comes to run only by being started, and ceases
      to only by being stopped or removed. */
  lemma {:induction false} OnlyIfStarted(s: State, run: seq<Step>, i: nat, j: nat, p: nat)
    requires Inv(s) && IsRun(s, run) && i <= j <= |run|
    ensures p in StateAt(s, run, j).running ==>
      p in StateAt(s, run, i).running || exists k :: i <= k < j && MayStart(run[k], p)
    ensures p in StateAt(s, run, i).running ==>
      p in StateAt(s, run, j).running || exists k :: i <= k < j && MayStop(run[k], p)
    decreases j
  {
    hide Inv, Enabled, After;
    if i < j {
      OnlyIfStarted(s, run, i, j - 1, p);
      StateNext(s, run, j - 1);
      StepRunning(StateAt(s, run, j - 1), run[j - 1], p);
    }
  }

  /** The step makes peer p run. */
  predicate Starts(s: State, st: Step, p: nat) {
    (st == StartPeer(p) && s.device != Closed) || (st == StartPeers && p in s.peers)
  }

  /** After a step a peer runs exactly if the step starts it, or it ran and the step does not stop it. */
  lemma StepRunning(s: State, st: Step, p: nat)
    requires Inv(s) && Enabled(s, st)
    ensures p in After(s, st).running <==> Starts(s, st, p) || (p in s.running && !MayStop(st, p))
  {
    hide Inv, Enabled, After;
    StepRunningSets(s, st);
  }

  /** The same of the whole set. */
  lemma StepRunningSets(s: State, st: Step)
    requires Enabled(s, st)
    ensures After(s, st).running ==
      match st
      case StartPeers => s.running + s.peers
      case StopPeers => {}
      case RemovePeers => {}
      case StartPeer(p) => if s.device == Closed then s.running else s.running + {p}
      case StopPeer(p) => s.running - {p}
      case RemovePeer(p) => s.running - {p}
      case _ => s.running
  {
    hide Plus, Minus;
  }

  /** And it is a peer exactly if the step adds it, or it was one and the step does not remove it. */
  lemma StepPeers(s: State, st: Step, p: nat)
    requires Inv(s) && Enabled(s, st)
    ensures p in After(s, st).peers <==>
      (st == NewPeer(p) && s.device != Closed) || (p in s.peers && st != RemovePeer(p) && st != RemovePeers)
  {
  }

  /** How many receivers a step leaves, if it opens or closes the bind. */
  function Binds(s: State, st: Step): Option<nat> {
    match st
    case BindUp(bound, n) => Some(if bound then n else 0)
    case Unbind => Some(0)
    case Rebind(bound, n) => Some(if bound && s.device == Up then n else 0)
    case _ => None
  }

  function ExitsIn(run: seq<Step>, i: nat, j: nat): nat
    requires i <= j <= |run|
    decreases j
  {
    if i == j then 0 else ExitsIn(run, i, j - 1) + if run[j - 1] == ReceiverExit then 1 else 0
  }

  lemma StepReceivers(s: State, st: Step)
    requires Inv(s) && Enabled(s, st)
    ensures Binds(s, st).Some? ==> After(s, st).receivers == Binds(s, st).value
    ensures Binds(s, st).None? ==> After(s, st).receivers == s.receivers - if st == ReceiverExit then 1 else 0
  {
  }

  /** There are the receivers of the last bind, but for those that have ended since. */
  lemma {:induction false} ReceiversOfLastBind(s: State, run: seq<Step>, i: nat, j: nat)
    requires Inv(s) && IsRun(s, run) && i < j <= |run| && Binds(StateAt(s, run, i), run[i]).Some?
    requires forall k :: i < k < j ==> Binds(StateAt(s, run, k), run[k]).None?
    ensures StateAt(s, run, j).receivers == Binds(StateAt(s, run, i), run[i]).value - ExitsIn(run, i + 1, j)
    decreases j
  {
    hide Inv, Enabled, After, Binds;
    StateNext(s, run, j - 1);
    StepReceivers(StateAt(s, run, j - 1), run[j - 1]);
    if i < j - 1 {
      ReceiversOfLastBind(s, run, i, j - 1);
    }
  }

  /** While nothing is done to bring the device up, it does not come up, no peers are
      started all at once, and no receivers appear. */
  lemma {:induction false} StaysDown(s: State, run: seq<Step>, i: nat, j: nat)
    requires Inv(s) && IsRun(s, run) && i <= j <= |run| && StateAt(s, run, i).device != Up
    requires forall k :: i <= k < j ==> run[k] != BeginUp
    ensures StateAt(s, run, j).device != Up && forall k :: i <= k < j ==> run[k] != StartPeers
    ensures StateAt(s, run, i).receivers == 0 ==> StateAt(s, run, j).receivers == 0
    decreases j
  {
    hide Inv, Enabled, After;
    if i < j {
      StaysDown(s, run, i, j - 1);
      StateNext(s, run, j - 1);
      StepDown(StateAt(s, run, j - 1), run[j - 1]);
    }
  }

  lemma StepDown(s: State, st: Step)
    requires Inv(s) && Enabled(s, st) && s.device != Up && st != BeginUp
    ensures After(s, st).device != Up && st != StartPeers && (s.receivers == 0 ==> After(s, st).receivers == 0)
  {
  }

  /** A Down that has begun comes to its end only by stopping the peers. */
  lemma {:induction false} EndsByStopping(s: State, run: seq<Step>, k: nat, n: nat) returns (i: nat)
    requires Inv(s) && IsRun(s, run) && k <= n <= |run| && StateAt(s, run, n).changing == Settled
    requires StateAt(s, run, k).changing == Unbinding || StateAt(s, run, k).changing == Stopping
    ensures k <= i < n && run[i] == StopPeers && StateAt(s, run, i + 1).running == {}
    ensures StateAt(s, run, i + 1).device == Down && StateAt(s, run, i + 1).receivers == 0
    decreases n - k
  {
    hide Inv, Enabled, After;
    StateNext(s, run, k);
    StepStopping(StateAt(s, run, k), run[k]);
    if run[k] == StopPeers {
      i := k;
    } else {
      i := EndsByStopping(s, run, k + 1, n);
    }
  }

  lemma StepStopping(s: State, st: Step)
    requires Inv(s) && Enabled(s, st) && (s.changing == Unbinding || s.changing == Stopping)
    ensures st == StopPeers ==>
      After(s, st).running == {} && After(s, st).device == Down && After(s, st).receivers == 0
    ensures st != StopPeers ==> After(s, st).changing == Unbinding || After(s, st).changing == Stopping
  {
  }

  /** Down, or an Up whose bind fails: the device is on its way down. */
  lemma OnTheWayDown(s: State, st: Step)
    requires Inv(s) && Enabled(s, st)
    requires (st == BeginDown && s.device == Up) || (st.BindUp? && !st.bound)
    ensures After(s, st).changing == Unbinding && After(s, st).device == Down
  {
  }

  /** When it has got there, and unless it is brought up again, there are no receivers,
      and only such peers run as were started one by one since all were stopped. */
  lemma DownOutcome(s: State, run: seq<Step>) returns (i: nat)
    requires Inv(s) && IsRun(s, run) && s.changing == Unbinding && BeginUp !in run
    requires Final(s, run).changing == Settled
    ensures i < |run| && run[i] == StopPeers && Final(s, run).device != Up && Final(s, run).receivers == 0
    ensures forall p :: p in Final(s, run).running ==> exists k :: i < k < |run| && run[k] == StartPeer(p)
  {
    StateLast(s, run);
    i := EndsByStopping(s, run, 0, |run|);
    StaysDown(s, run, i + 1, |run|);
    forall p | p in Final(s, run).running ensures exists k :: i < k < |run| && run[k] == StartPeer(p) {
      OnlyIfStarted(s, run, i + 1, |run|, p);
    }
  }

  /** The steps after which the receivers may be others than those of the bind. */
  predicate Unsettles(st: Step) {
    st.Rebind? || st == ReceiverExit
  }

  /** Peers are started all at once only after a bind has succeeded, and with its receivers. */
  lemma {:induction false} StartsAfterBind(s: State, run: seq<Step>, i: nat) returns (j: nat)
    requires Inv(s) && IsRun(s, run) && i <= |run| && s.changing != Starting && StateAt(s, run, i).changing == Starting
    ensures j < i && run[j].BindUp? && run[j].bound
    ensures (forall k :: j < k < i ==> !Unsettles(run[k])) ==> StateAt(s, run, i).receivers == run[j].receivers
    decreases i
  {
    hide Inv, Enabled, After;
    StateNext(s, run, i - 1);
    StepStarting(StateAt(s, run, i - 1), run[i - 1]);
    if run[i - 1].BindUp? {
      j := i - 1;
    } else {
      j := StartsAfterBind(s, run, i - 1);
    }
  }

  lemma StepStarting(s: State, st: Step)
    requires Inv(s) && Enabled(s, st) && After(s, st).changing == Starting
    ensures st.BindUp? ==> st.bound && After(s, st).receivers == st.receivers
    ensures !st.BindUp? ==> s.changing == Starting && (Unsettles(st) || After(s, st).receivers == s.receivers)
  {
  }

  /** An Up that succeeds: the device is up, all its peers run, and there are the receivers
      of the bind; and a peer then ceases to run only by being stopped or removed. */
  lemma UpOutcome(s: State, run: seq<Step>, i: nat) returns (j: nat)
    requires Inv(s) && IsRun(s, run) && s.changing != Starting && i < |run| && run[i] == StartPeers
    ensures j < i && run[j].BindUp? && run[j].bound
    ensures var t := StateAt(s, run, i + 1);
      && t.device == Up && t.changing == Settled && t.running == t.peers
      && ((forall k :: j < k < i ==> !Unsettles(run[k])) ==> t.receivers == run[j].receivers)
      && forall p :: p in t.peers ==> p in Final(s, run).running || exists k :: i < k < |run| && MayStop(run[k], p)
  {
    StateNext(s, run, i);
    StepStarted(StateAt(s, run, i));
    hide Inv, Enabled, After;
    j := StartsAfterBind(s, run, i);
    StateLast(s, run);
    var t := StateAt(s, run, i + 1);
    forall p | p in t.peers ensures p in Final(s, run).running || exists k :: i < k < |run| && MayStop(run[k], p) {
      OnlyIfStarted(s, run, i + 1, |run|, p);
    }
  }

  lemma StepStarted(s: State)
    requires Inv(s) && Enabled(s, StartPeers)
    ensures s.changing == Starting
    ensures var t := After(s, StartPeers);
      t.device == Up && t.changing == Settled && t.running == t.peers && t.receivers == s.receivers
  {
  }

  /** A peer that is removed is none, and does not run, until it is added again. */
  lemma {:induction false} RemovedOutcome(s: State, run: seq<Step>, i: nat, j: nat, p: nat)
    requires Inv(s) && IsRun(s, run) && i < j <= |run| && (run[i] == RemovePeer(p) || run[i] == RemovePeers)
    requires forall k :: i < k < j ==> run[k] != NewPeer(p)
    ensures p !in StateAt(s, run, j).peers && p !in StateAt(s, run, j).running
    decreases j
  {
    hide Inv, Enabled, After;
    StateNext(s, run, j - 1);
    var t := StateAt(s, run, j - 1);
    StepInv(t, run[j - 1]);
    StepPeers(t, run[j - 1], p);
    if i < j - 1 {
      RemovedOutcome(s, run, i, j - 1, p);
    }
    PeersRun(After(t, run[j - 1]));
  }

  lemma PeersRun(s: State)
    requires Inv(s)
    ensures s.running <= s.peers
  {
  }

  /** Each part of Close can follow the one before, as soon as the receivers have ended. */
  lemma CloseProceeds(s: State)
    requires Inv(s)
    ensures s.closing == Begun && s.receivers == 0 ==> Enabled(s, CloseBind)
    ensures s.closing == BindClosed ==> Enabled(s, RemovePeers) && After(s, RemovePeers).closing == PeersRemoved
    ensures s.closing == PeersRemoved ==> Enabled(s, DropRefs) && After(s, DropRefs).closing == RefsDropped
    ensures s.closing == RefsDropped ==>
      && Enabled(s, CloseDecryption) && Enabled(s, CloseHandshake)
      && (Enabled(s, CloseEncryption) <==> !s.reader && s.workers == 0)
  {
  }

  function Exits(n: nat): seq<Step> {
    if n == 0 then [] else [WorkerExit] + Exits(n - 1)
  }

  /** The reader ends if it has not, and the other two queues close. */
  function LastOf(reader: bool): seq<Step> {
    (if reader then [ReaderExit] else []) + [CloseEncryption, CloseDecryption]
  }

  /** After Close: the handshake queue closes, which ends the workers; the reader ends; the rest closes. */
  function Ending(s: State): seq<Step> {
    [CloseHandshake] + (Exits(s.workers) + LastOf(s.reader))
  }

  lemma LastSteps(s: State)
    requires Inv(s) && s.closing == RefsDropped && s.workers == 0 && s.handshake.closed
    ensures var run := LastOf(s.reader);
      && IsRun(s, run)
      && var t := Final(s, run); t.encryption.closed && t.decryption.closed && t.handshake.closed
  {
    var s1 := if s.reader then After(s, ReaderExit) else s;
    var s2 := After(s1, CloseEncryption);
    var last: seq<Step> := [CloseEncryption, CloseDecryption];
    assert last[1..] == [CloseDecryption] && last[1..][1..] == [];
    assert IsRun(s2, last[1..]) && IsRun(s1, last);
    if s.reader {
      assert ([ReaderExit] + last)[1..] == last;
    } else {
      assert [] + last == last;
    }
  }

  lemma {:induction false} WorkersEnd(s: State)
    requires Inv(s) && s.closing == RefsDropped && s.handshake.closed
    ensures var run := Exits(s.workers) + LastOf(s.reader);
      && IsRun(s, run)
      && var t := Final(s, run); t.encryption.closed && t.decryption.closed && t.handshake.closed
    decreases s.workers
  {
    var last := LastOf(s.reader);
    if s.workers == 0 {
      LastSteps(s);
      assert [] + last == last;
    } else {
      StepInv(s, WorkerExit);
      WorkersEnd(After(s, WorkerExit));
      var run := Exits(s.workers) + last;
      assert run[0] == WorkerExit && run[1..] == Exits(s.workers - 1) + last;
    }
  }

  /** After Close all three queues come to be closed, once the workers and the reader have ended. */
  lemma CloseOutcome(s: State)
    requires Inv(s) && s.closing == RefsDropped
    ensures IsRun(s, Ending(s))
    ensures var t := Final(s, Ending(s)); t.encryption.closed && t.decryption.closed && t.handshake.closed
  {
    StepInv(s, CloseHandshake);
    var s1 := After(s, CloseHandshake);
    WorkersEnd(s1);
    var last := LastOf(s.reader);
    assert Ending(s)[0] == CloseHandshake && Ending(s)[1..] == Exits(s1.workers) + last;
  }

  // ----- the operations with nothing between

  lemma {:induction false} RunOfMore(s: State, a: Step, run: seq<Step>)
    requires Enabled(s, a) && IsRun(After(s, a), run)
    ensures IsRun(s, [a] + run) && Final(s, [a] + run) == Final(After(s, a), run)
  {
    hide Enabled, After;
    assert ([a] + run)[1..] == run;
  }

  lemma RunOf2(s: State, a: Step, b: Step)
    requires Enabled(s, a) && Enabled(After(s, a), b)
    ensures IsRun(s, [a, b]) && Final(s, [a, b]) == After(After(s, a), b)
  {
    hide Enabled, After;
    var s1 := After(s, a);
    assert IsRun(After(s1, b), []);
    RunOfMore(s1, b, []);
    assert [b] + [] == [b] && [a] + [b] == [a, b];
    RunOfMore(s, a, [b]);
  }

  /** Up, when the bind opens with n receive functions. */
  lemma UpAlone(s: State, n: nat)
    requires Inv(s) && s.device == Down && s.Unlocked()
    ensures var run := [BeginUp] + [BindUp(true, n), StartPeers];
      && IsRun(s, run)
      && var t := Final(s, run); t.device == Up && t.Unlocked() && t.running == t.peers == s.peers && t.receivers == n
  {
    UpParts(s, n);
    hide Inv, Enabled, After;
    RunOf2(After(s, BeginUp), BindUp(true, n), StartPeers);
    RunOfMore(s, BeginUp, [BindUp(true, n), StartPeers]);
  }

  lemma UpParts(s: State, n: nat)
    requires Inv(s) && s.device == Down && s.Unlocked()
    ensures Enabled(s, BeginUp)
    ensures var s1 := After(s, BeginUp); Enabled(s1, BindUp(true, n)) && Enabled(After(s1, BindUp(true, n)), StartPeers)
    ensures var t := After(After(After(s, BeginUp), BindUp(true, n)), StartPeers);
      t.device == Up && t.Unlocked() && t.running == t.peers == s.peers && t.receivers == n
  {
  }

  /** And when the bind does not open. */
  lemma UpFails(s: State, n: nat)
    requires Inv(s) && s.device == Down && s.Unlocked()
    ensures var run := [BeginUp] + ([BindUp(false, n)] + [Unbind, StopPeers]);
      && IsRun(s, run)
      && var t := Final(s, run); t.device == Down && t.Unlocked() && t.running == {} && t.receivers == 0
  {
    var s1 := After(s, BeginUp);
    var s2 := After(s1, BindUp(false, n));
    DownParts(s2);
    RunOf2(s2, Unbind, StopPeers);
    RunOfMore(s1, BindUp(false, n), [Unbind, StopPeers]);
    RunOfMore(s, BeginUp, [BindUp(false, n)] + [Unbind, StopPeers]);
  }

  lemma DownParts(s: State)
    requires s.changing == Unbinding && s.device == Down && s.Configurable()
    ensures Enabled(s, Unbind) && Enabled(After(s, Unbind), StopPeers)
    ensures var t := After(After(s, Unbind), StopPeers);
      t.device == Down && t.Unlocked() && t.running == {} && t.receivers == 0
  {
  }

  lemma DownAlone(s: State)
    requires Inv(s) && s.device == Up && s.Unlocked()
    ensures var run := [BeginDown] + [Unbind, StopPeers];
      && IsRun(s, run)
      && var t := Final(s, run); t.device == Down && t.Unlocked() && t.running == {} && t.receivers == 0
  {
    DownParts(After(s, BeginDown));
    RunOf2(After(s, BeginDown), Unbind, StopPeers);
    RunOfMore(s, BeginDown, [Unbind, StopPeers]);
  }

  function ReceiverExits(n: nat): seq<Step> {
    if n == 0 then [] else [ReceiverExit] + ReceiverExits(n - 1)
  }

  lemma {:induction false} RunConcat(s: State, a: seq<Step>, b: seq<Step>)
    requires IsRun(s, a) && IsRun(Final(s, a), b)
    ensures IsRun(s, a + b) && Final(s, a + b) == Final(Final(s, a), b)
    decreases |a|
  {
    hide Enabled, After;
    if a == [] {
      assert a + b == b;
    } else {
      RunConcat(After(s, a[0]), a[1..], b);
      RunOfMore(s, a[0], a[1..] + b);
      assert [a[0]] + (a[1..] + b) == a + b;
    }
  }

  lemma {:induction false} ReceiversEnd(s: State)
    requires Inv(s)
    ensures IsRun(s, ReceiverExits(s.receivers))
    ensures var t := Final(s, ReceiverExits(s.receivers)); Inv(t) && t.receivers == 0 && t.closing == s.closing
    decreases s.receivers
  {
    if s.receivers > 0 {
      StepInv(s, ReceiverExit);
      ReceiversEnd(After(s, ReceiverExit));
      RunOfMore(s, ReceiverExit, ReceiverExits(s.receivers - 1));
    }
  }

  /** Close: the receivers end, the peers are removed, and the device's references are dropped. */
  lemma CloseAlone(s: State)
    requires Inv(s) && s.closing == Open && s.changing == Settled
    ensures var run := [BeginClose] + (ReceiverExits(s.receivers) + ([CloseBind] + [RemovePeers, DropRefs]));
      && IsRun(s, run)
      && var t := Final(s, run); Inv(t) && t.device == Closed && t.closing == RefsDropped && t.peers == {}
  {
    var s1 := After(s, BeginClose);
    StepInv(s, BeginClose);
    ReceiversEnd(s1);
    var s2 := Final(s1, ReceiverExits(s1.receivers));
    var s3 := After(s2, CloseBind);
    StepInv(s2, CloseBind);
    CloseParts(s3);
    RunOf2(s3, RemovePeers, DropRefs);
    RunOfMore(s2, CloseBind, [RemovePeers, DropRefs]);
    RunConcat(s1, ReceiverExits(s1.receivers), [CloseBind] + [RemovePeers, DropRefs]);
    RunOfMore(s, BeginClose, ReceiverExits(s.receivers) + ([CloseBind] + [RemovePeers, DropRefs]));
  }

  lemma CloseParts(s: State)
    requires Inv(s) && s.closing == BindClosed
    ensures Enabled(s, RemovePeers) && Enabled(After(s, RemovePeers), DropRefs)
    ensures var t := After(After(s, RemovePeers), DropRefs);
      Inv(t) && t.device == Closed && t.closing == RefsDropped && t.peers == {}
  {
    StepInv(s, RemovePeers);
    StepInv(After(s, RemovePeers), DropRefs);
  }
}
