/** Concurrent calls of Handshake, Read, Write and Close on one connection, as
    interleavings of the steps between which another goroutine can run. */
module ConnInterleaving {
  import opened Bytes

  type Call = nat

  datatype Op = DoHandshake | DoRead | DoWrite(records: nat) | DoClose

  /** Where a call stands. The states from `InOnce` to `Stored` lie inside
      handshakeOnce.Do. */
  datatype Pc =
    | Enter(op: Op)                    // before handshakeOnce.Do
    | InOnce(op: Op)                   // about to load closed
    | Handshaking(op: Op)
    | HandshakeRecord(op: Op)          // inside WriteRecord
    | Finished(op: Op, ok: bool)       // about to store handshakeOK
    | Stored(op: Op, ok: bool)         // about to leave the once
    | Ready(op: Op)                    // handshake succeeded; Read or Write goes on
    | Reading                          // holds inMu
    | WriteCheck(left: nat)            // holds outMu, about to load closed
    | WriteLoop(left: nat)             // holds outMu
    | WriteRecord(left: nat)           // holds outMu, inside WriteRecord
    | CloseSwap                        // about to compare-and-swap closed
    | CloseLoad                        // about to load handshakeOK
    | CloseTryLock
    | CloseLocked                      // holds outMu
    | CloseRecord                      // holds outMu, inside WriteRecord
    | CloseUnlock                      // holds outMu
    | CloseTransport                   // about to close the transport
    | Returned

  datatype Once = NotRun | Running(runner: Call) | Done(ok: bool)
  datatype Kind = HandshakeData | ApplicationData | CloseNotify

  /** `log` lists the record writes in the order they began. */
  datatype State = State(
    pcs: map<Call, Pc>,
    once: Once,
    closed: Option<Call>,
    handshakeOK: bool,
    inMu: Option<Call>,
    outMu: Option<Call>,
    log: seq<Kind>)

  const INITIAL: State := State(map[], NotRun, None, false, None, None, [])

  /** The choices that are not the code's: what is called, whether the handshake
      writes another record, and how writes, reads and the handshake end. */
  datatype Choice = Start(op: Op) | Go(ok: bool, more: bool)

  function At(s: State, c: Call, pc: Pc): (r: State)
  {
    s.(pcs := s.pcs[c := pc])
  }

  /** One step of call `c`; `None` means that it cannot take one now. */
  function Step(s: State, c: Call, choice: Choice): (r: Option<State>)
  {
    match choice
    case Start(op) =>
      if c in s.pcs then None else Some(At(s, c, if op.DoClose? then CloseSwap else Enter(op)))
    case Go(ok, more) =>
      if c !in s.pcs then None
      else if s.pcs[c].Enter? || InsideOnce(s.pcs[c]) then OnceStep(s, c, ok, more)
      else if AfterSuccess(s.pcs[c]) then DataStep(s, c, ok)
      else if s.pcs[c].CloseSwap? || Closing(s.pcs[c]) then Some(CloseStep(s, c))
      else None
  }

  /** A call that finds the once running waits. */
  function OnceStep(s: State, c: Call, ok: bool, more: bool): (r: Option<State>)
    requires c in s.pcs && (s.pcs[c].Enter? || InsideOnce(s.pcs[c]))
  {
    match s.pcs[c]
    case Enter(op) =>
      (match s.once
       case NotRun => Some(At(s, c, InOnce(op)).(once := Running(c)))
       case Running(_) => None
       case Done(good) => Some(At(s, c, if good then AfterHandshake(op) else Returned)))
    case InOnce(op) => Some(At(s, c, if s.closed.Some? then Stored(op, false) else Handshaking(op)))
    case Handshaking(op) =>
      if more then Some(At(s, c, HandshakeRecord(op)).(log := s.log + [HandshakeData]))
      else Some(At(s, c, Finished(op, ok)))
    case HandshakeRecord(op) => Some(At(s, c, if ok then Handshaking(op) else Finished(op, false)))
    case Finished(op, good) => Some(At(s, c, Stored(op, good)).(handshakeOK := s.handshakeOK || good))
    case Stored(op, good) =>
      Some(At(s, c, if good then AfterHandshake(op) else Returned).(once := Done(good)))
  }

  /** A call that finds its mutex taken waits. */
  function DataStep(s: State, c: Call, ok: bool): (r: Option<State>)
    requires c in s.pcs && AfterSuccess(s.pcs[c])
  {
    match s.pcs[c]
    case Ready(op) =>
      if op.DoRead? then
        (if s.inMu.Some? then None else Some(At(s, c, Reading).(inMu := Some(c))))
      else if op.DoWrite? then
        (if s.outMu.Some? then None else Some(At(s, c, WriteCheck(op.records)).(outMu := Some(c))))
      else None
    case Reading => Some(At(s, c, Returned).(inMu := None))
    case WriteCheck(left) =>
      if s.closed.Some? then Some(At(s, c, Returned).(outMu := None)) else Some(At(s, c, WriteLoop(left)))
    case WriteLoop(left) =>
      if left == 0 then Some(At(s, c, Returned).(outMu := None))
      else Some(At(s, c, WriteRecord(left - 1)).(log := s.log + [ApplicationData]))
    case WriteRecord(left) =>
      if ok then Some(At(s, c, WriteLoop(left))) else Some(At(s, c, Returned).(outMu := None))
  }

  /** Close has a step in every state. */
  function CloseStep(s: State, c: Call): (r: State)
    requires c in s.pcs && (s.pcs[c].CloseSwap? || Closing(s.pcs[c]))
  {
    match s.pcs[c]
    case CloseSwap =>
      if s.closed.Some? then At(s, c, Returned) else At(s, c, CloseLoad).(closed := Some(c))
    case CloseLoad => At(s, c, if s.handshakeOK then CloseTryLock else CloseTransport)
    case CloseTryLock =>
      if s.outMu.Some? then At(s, c, CloseTransport) else At(s, c, CloseLocked).(outMu := Some(c))
    case CloseLocked => At(s, c, CloseRecord).(log := s.log + [CloseNotify])
    case CloseRecord => At(s, c, CloseUnlock)
    case CloseUnlock => At(s, c, CloseTransport).(outMu := None)
    case CloseTransport => At(s, c, Returned)
  }

  function AfterHandshake(op: Op): (pc: Pc)
  {
    if op.DoHandshake? then Returned else Ready(op)
  }

  // ---- Invariant ----------------------------------------------------------

  predicate InsideOnce(pc: Pc)
  {
    pc.InOnce? || pc.Handshaking? || pc.HandshakeRecord? || pc.Finished? || pc.Stored?
  }

  predicate HoldsOut(pc: Pc)
  {
    pc.WriteCheck? || pc.WriteLoop? || pc.WriteRecord? || pc.CloseLocked? || pc.CloseRecord? || pc.CloseUnlock?
  }

  predicate AfterSuccess(pc: Pc)
  {
    pc.Ready? || pc.Reading? || pc.WriteCheck? || pc.WriteLoop? || pc.WriteRecord?
  }

  predicate Closing(pc: Pc)
  {
    pc.CloseLoad? || pc.CloseTryLock? || pc.CloseLocked? || pc.CloseRecord? || pc.CloseUnlock? || pc.CloseTransport?
  }

  predicate BeforeNotify(pc: Pc)
  {
    pc.CloseLoad? || pc.CloseTryLock? || pc.CloseLocked?
  }

  /** Inside WriteRecord. */
  predicate Writing(pc: Pc)
  {
    pc.HandshakeRecord? || pc.WriteRecord? || pc.CloseRecord?
  }

  function Last(log: seq<Kind>): (k: Option<Kind>)
  {
    if log == [] then None else Some(log[|log| - 1])
  }

  /** What is true of each call on its own. */
  predicate CallInv(s: State, c: Call)
    requires c in s.pcs
  {
    var pc := s.pcs[c];
    && (InsideOnce(pc) <==> s.once == Running(c))
    && (HoldsOut(pc) <==> s.outMu == Some(c))
    && (pc.Reading? <==> s.inMu == Some(c))
    && (AfterSuccess(pc) ==> s.once == Done(true))
    && (Closing(pc) ==> s.closed == Some(c))
    && (pc.CloseTryLock? || pc.CloseLocked? || pc.CloseRecord? || pc.CloseUnlock? ==> s.handshakeOK)
    && (pc.CloseSwap? ==> s.closed != Some(c))
    && (pc.Stored? && pc.ok ==> s.handshakeOK)
    && (s.closed == Some(c) && BeforeNotify(pc) ==> Last(s.log) != Some(CloseNotify))
    && (Last(s.log) == Some(CloseNotify) ==> !pc.WriteLoop? && !pc.WriteRecord?)
  }

  predicate RunnerStored(s: State)
  {
    s.once.Running? && s.once.runner in s.pcs && s.pcs[s.once.runner].Stored? && s.pcs[s.once.runner].ok
  }

  /** What ties the shared variables together. */
  predicate SharedInv(s: State)
  {
    && (s.once.Running? ==> s.once.runner in s.pcs)
    && (s.outMu.Some? ==> s.outMu.value in s.pcs)
    && (s.inMu.Some? ==> s.inMu.value in s.pcs)
    && (s.closed.Some? ==> s.closed.value in s.pcs)
    && (s.handshakeOK ==> s.once == Done(true) || RunnerStored(s))
    && (s.once == Done(true) ==> s.handshakeOK)
    && (Last(s.log) == Some(CloseNotify) ==> s.closed.Some? && s.handshakeOK)
    && (Last(s.log) == Some(ApplicationData) ==> s.once == Done(true))
  }

  /** A handshake comes first, data follow, and a close_notify ends the log. */
  predicate LogShape(log: seq<Kind>)
  {
    && (forall i :: 0 <= i < |log| - 1 ==> log[i] != CloseNotify)
    && (forall i, j :: 0 <= i < j < |log| && log[j] == HandshakeData ==> log[i] == HandshakeData)
  }

  predicate Inv(s: State)
  {
    SharedInv(s) && LogShape(s.log) && forall c :: c in s.pcs ==> CallInv(s, c)
  }

  lemma StartKeepsInv(s: State, c: Call, op: Op)
    requires Inv(s) && c !in s.pcs
    ensures Inv(At(s, c, if op.DoClose? then CloseSwap else Enter(op)))
  {
    var s' := At(s, c, if op.DoClose? then CloseSwap else Enter(op));
    forall d | d in s'.pcs ensures CallInv(s', d) {
      assert d != c ==> CallInv(s, d);
    }
  }

  /** What a step of another call must leave alone for call `d`. */
  lemma OtherCallKept(s: State, s': State, d: Call)
    requires d in s.pcs && d in s'.pcs && s.pcs[d] == s'.pcs[d] && CallInv(s, d)
    requires s.once == Running(d) <==> s'.once == Running(d)
    requires s.once == Done(true) ==> s'.once == Done(true)
    requires s.outMu == Some(d) <==> s'.outMu == Some(d)
    requires s.inMu == Some(d) <==> s'.inMu == Some(d)
    requires s.closed == Some(d) <==> s'.closed == Some(d)
    requires s.handshakeOK ==> s'.handshakeOK
    requires || Last(s'.log) != Some(CloseNotify) || Last(s.log) == Some(CloseNotify)
             || (!HoldsOut(s.pcs[d]) && s.closed != Some(d))
    ensures CallInv(s', d)
  {
  }

  lemma LogGrows(log: seq<Kind>, k: Kind)
    requires LogShape(log) && Last(log) != Some(CloseNotify)
    requires k == HandshakeData ==> Last(log) != Some(ApplicationData)
    ensures LogShape(log + [k])
  {
    if log != [] {
      match log[|log| - 1]
      case HandshakeData =>
      case ApplicationData =>
      case CloseNotify =>
    }
  }

  lemma OnceKeepsShared(s: State, c: Call, ok: bool, more: bool)
    requires c in s.pcs && (s.pcs[c].Enter? || InsideOnce(s.pcs[c])) && OnceStep(s, c, ok, more).Some?
    requires SharedInv(s) && CallInv(s, c)
    ensures SharedInv(OnceStep(s, c, ok, more).value)
  {
  }

  lemma OnceStartKeepsCall(s: State, c: Call, ok: bool, more: bool)
    requires c in s.pcs && (s.pcs[c].Enter? || InsideOnce(s.pcs[c])) && OnceStep(s, c, ok, more).Some?
    requires s.pcs[c].Enter? || s.pcs[c].InOnce? || s.pcs[c].Handshaking?
    requires SharedInv(s) && CallInv(s, c)
    ensures var s' := OnceStep(s, c, ok, more).value;
            s'.pcs == s.pcs[c := s'.pcs[c]] && CallInv(s', c)
  {
  }

  lemma OnceEndKeepsCall(s: State, c: Call, ok: bool, more: bool)
    requires c in s.pcs && (s.pcs[c].Enter? || InsideOnce(s.pcs[c])) && OnceStep(s, c, ok, more).Some?
    requires !(s.pcs[c].Enter? || s.pcs[c].InOnce? || s.pcs[c].Handshaking?)
    requires SharedInv(s) && CallInv(s, c)
    ensures var s' := OnceStep(s, c, ok, more).value;
            s'.pcs == s.pcs[c := s'.pcs[c]] && CallInv(s', c)
  {
  }

  lemma OnceKeepsCall(s: State, c: Call, ok: bool, more: bool)
    requires c in s.pcs && (s.pcs[c].Enter? || InsideOnce(s.pcs[c])) && OnceStep(s, c, ok, more).Some?
    requires SharedInv(s) && CallInv(s, c)
    ensures var s' := OnceStep(s, c, ok, more).value;
            s'.pcs == s.pcs[c := s'.pcs[c]] && CallInv(s', c)
  {
    hide SharedInv, CallInv, OnceStep;
    if s.pcs[c].Enter? || s.pcs[c].InOnce? || s.pcs[c].Handshaking? {
      OnceStartKeepsCall(s, c, ok, more);
    } else {
      OnceEndKeepsCall(s, c, ok, more);
    }
  }

  lemma OnceKeepsLog(s: State, c: Call, ok: bool, more: bool)
    requires c in s.pcs && (s.pcs[c].Enter? || InsideOnce(s.pcs[c])) && OnceStep(s, c, ok, more).Some?
    requires SharedInv(s) && CallInv(s, c) && LogShape(s.log)
    ensures LogShape(OnceStep(s, c, ok, more).value.log)
  {
    hide LogShape;
    var s' := OnceStep(s, c, ok, more).value;
    if s'.log != s.log {
      assert Last(s.log) != Some(ApplicationData) && Last(s.log) != Some(CloseNotify);
      LogGrows(s.log, s'.log[|s.log|]);
    }
  }

  lemma OnceKeepsOther(s: State, c: Call, d: Call, ok: bool, more: bool)
    requires c in s.pcs && (s.pcs[c].Enter? || InsideOnce(s.pcs[c])) && OnceStep(s, c, ok, more).Some?
    requires d in s.pcs && d != c && SharedInv(s) && CallInv(s, c) && CallInv(s, d)
    ensures d in OnceStep(s, c, ok, more).value.pcs && CallInv(OnceStep(s, c, ok, more).value, d)
  {
    OtherCallKept(s, OnceStep(s, c, ok, more).value, d);
  }

  lemma OnceKeepsInv(s: State, c: Call, ok: bool, more: bool)
    requires Inv(s) && c in s.pcs && (s.pcs[c].Enter? || InsideOnce(s.pcs[c])) && OnceStep(s, c, ok, more).Some?
    ensures Inv(OnceStep(s, c, ok, more).value)
  {
    hide CallInv, SharedInv, LogShape, OnceStep;
    OnceKeepsShared(s, c, ok, more);
    OnceKeepsCall(s, c, ok, more);
    OnceKeepsLog(s, c, ok, more);
    var s' := OnceStep(s, c, ok, more).value;
    forall d | d in s'.pcs ensures CallInv(s', d) {
      if d != c {
        OnceKeepsOther(s, c, d, ok, more);
      }
    }
  }

  lemma DataKeepsShared(s: State, c: Call, ok: bool)
    requires c in s.pcs && AfterSuccess(s.pcs[c]) && DataStep(s, c, ok).Some?
    requires SharedInv(s) && CallInv(s, c)
    ensures SharedInv(DataStep(s, c, ok).value)
  {
  }

  lemma DataKeepsCall(s: State, c: Call, ok: bool)
    requires c in s.pcs && AfterSuccess(s.pcs[c]) && DataStep(s, c, ok).Some?
    requires SharedInv(s) && CallInv(s, c)
    ensures var s' := DataStep(s, c, ok).value;
            s'.pcs == s.pcs[c := s'.pcs[c]] && CallInv(s', c)
  {
  }

  lemma DataKeepsLog(s: State, c: Call, ok: bool)
    requires c in s.pcs && AfterSuccess(s.pcs[c]) && DataStep(s, c, ok).Some?
    requires SharedInv(s) && CallInv(s, c) && LogShape(s.log)
    ensures LogShape(DataStep(s, c, ok).value.log)
  {
    hide LogShape;
    var s' := DataStep(s, c, ok).value;
    if s'.log != s.log {
      LogGrows(s.log, s'.log[|s.log|]);
    }
  }

  lemma DataKeepsOther(s: State, c: Call, d: Call, ok: bool)
    requires c in s.pcs && AfterSuccess(s.pcs[c]) && DataStep(s, c, ok).Some?
    requires d in s.pcs && d != c && SharedInv(s) && CallInv(s, c) && CallInv(s, d)
    ensures d in DataStep(s, c, ok).value.pcs && CallInv(DataStep(s, c, ok).value, d)
  {
    OtherCallKept(s, DataStep(s, c, ok).value, d);
  }

  lemma DataKeepsInv(s: State, c: Call, ok: bool)
    requires Inv(s) && c in s.pcs && AfterSuccess(s.pcs[c]) && DataStep(s, c, ok).Some?
    ensures Inv(DataStep(s, c, ok).value)
  {
    hide CallInv, SharedInv, LogShape, DataStep;
    DataKeepsShared(s, c, ok);
    DataKeepsCall(s, c, ok);
    DataKeepsLog(s, c, ok);
    var s' := DataStep(s, c, ok).value;
    forall d | d in s'.pcs ensures CallInv(s', d) {
      if d != c {
        DataKeepsOther(s, c, d, ok);
      }
    }
  }

  lemma CloseKeepsShared(s: State, c: Call)
    requires c in s.pcs && (s.pcs[c].CloseSwap? || Closing(s.pcs[c]))
    requires SharedInv(s) && CallInv(s, c)
    ensures SharedInv(CloseStep(s, c))
  {
  }

  lemma CloseSwapKeepsCall(s: State, c: Call)
    requires c in s.pcs && s.pcs[c].CloseSwap?
    requires SharedInv(s) && CallInv(s, c)
    ensures var s' := CloseStep(s, c);
            s'.pcs == s.pcs[c := s'.pcs[c]] && CallInv(s', c)
  {
  }

  lemma CloseStartKeepsCall(s: State, c: Call)
    requires c in s.pcs && BeforeNotify(s.pcs[c])
    requires SharedInv(s) && CallInv(s, c)
    ensures var s' := CloseStep(s, c);
            s'.pcs == s.pcs[c := s'.pcs[c]] && CallInv(s', c)
  {
  }

  lemma CloseEndKeepsCall(s: State, c: Call)
    requires c in s.pcs && (s.pcs[c].CloseSwap? || Closing(s.pcs[c]))
    requires !(s.pcs[c].CloseSwap? || BeforeNotify(s.pcs[c]))
    requires SharedInv(s) && CallInv(s, c)
    ensures var s' := CloseStep(s, c);
            s'.pcs == s.pcs[c := s'.pcs[c]] && CallInv(s', c)
  {
  }

  lemma CloseKeepsCall(s: State, c: Call)
    requires c in s.pcs && (s.pcs[c].CloseSwap? || Closing(s.pcs[c]))
    requires SharedInv(s) && CallInv(s, c)
    ensures var s' := CloseStep(s, c);
            s'.pcs == s.pcs[c := s'.pcs[c]] && CallInv(s', c)
  {
    hide SharedInv, CallInv, CloseStep;
    if s.pcs[c].CloseSwap? {
      CloseSwapKeepsCall(s, c);
    } else if BeforeNotify(s.pcs[c]) {
      CloseStartKeepsCall(s, c);
    } else {
      CloseEndKeepsCall(s, c);
    }
  }

  lemma CloseKeepsLog(s: State, c: Call)
    requires c in s.pcs && (s.pcs[c].CloseSwap? || Closing(s.pcs[c]))
    requires SharedInv(s) && CallInv(s, c) && LogShape(s.log)
    ensures LogShape(CloseStep(s, c).log)
  {
    hide LogShape;
    var s' := CloseStep(s, c);
    if s'.log != s.log {
      LogGrows(s.log, s'.log[|s.log|]);
    }
  }

  lemma CloseKeepsOther(s: State, c: Call, d: Call)
    requires c in s.pcs && (s.pcs[c].CloseSwap? || Closing(s.pcs[c]))
    requires d in s.pcs && d != c && SharedInv(s) && CallInv(s, c) && CallInv(s, d)
    ensures d in CloseStep(s, c).pcs && CallInv(CloseStep(s, c), d)
  {
    OtherCallKept(s, CloseStep(s, c), d);
  }

  lemma CloseKeepsInv(s: State, c: Call)
    requires Inv(s) && c in s.pcs && (s.pcs[c].CloseSwap? || Closing(s.pcs[c]))
    ensures Inv(CloseStep(s, c))
  {
    hide CallInv, SharedInv, LogShape, CloseStep;
    CloseKeepsShared(s, c);
    CloseKeepsCall(s, c);
    CloseKeepsLog(s, c);
    var s' := CloseStep(s, c);
    forall d | d in s'.pcs ensures CallInv(s', d) {
      if d != c {
        CloseKeepsOther(s, c, d);
      }
    }
  }

  lemma StepKeepsInv(s: State, c: Call, choice: Choice)
    requires Inv(s) && Step(s, c, choice).Some?
    ensures Inv(Step(s, c, choice).value)
  {
    hide Inv, OnceStep, DataStep, CloseStep, At;
    match choice
    case Start(op) => StartKeepsInv(s, c, op);
    case Go(ok, more) =>
      if s.pcs[c].Enter? || InsideOnce(s.pcs[c]) {
        OnceKeepsInv(s, c, ok, more);
      } else if AfterSuccess(s.pcs[c]) {
        DataKeepsInv(s, c, ok);
      } else {
        CloseKeepsInv(s, c);
      }
  }

  // ---- Runs ---------------------------------------------------------------

  datatype Move = Move(call: Call, choice: Choice)

  /** The state after a schedule, if every step of it could be taken. */
  function Run(s: State, moves: seq<Move>): (r: Option<State>)
    decreases |moves|
  {
    if moves == [] then Some(s)
    else match Step(s, moves[0].call, moves[0].choice)
      case None => None
      case Some(s') => Run(s', moves[1..])
  }

  lemma {:induction false} RunKeepsInv(s: State, moves: seq<Move>)
    requires Inv(s) && Run(s, moves).Some?
    ensures Inv(Run(s, moves).value)
    decreases |moves|
  {
    hide Step, Inv;
    if moves != [] {
      StepKeepsInv(s, moves[0].call, moves[0].choice);
      RunKeepsInv(Step(s, moves[0].call, moves[0].choice).value, moves[1..]);
    }
  }

  ghost predicate Reachable(s: State)
  {
    exists moves :: Run(INITIAL, moves) == Some(s)
  }

  lemma ReachableInv(s: State)
    requires Reachable(s)
    ensures Inv(s)
  {
    var moves :| Run(INITIAL, moves) == Some(s);
    RunKeepsInv(INITIAL, moves);
  }

  // ---- What every interleaving keeps --------------------------------------

  /** Two record writes never overlap. */
  lemma WritesNeverOverlap(s: State, c: Call, d: Call)
    requires Reachable(s) && c in s.pcs && d in s.pcs
    requires Writing(s.pcs[c]) && Writing(s.pcs[d])
    ensures c == d
  {
    hide Reachable;
    ReachableInv(s);
    assert CallInv(s, c) && CallInv(s, d);
  }

  /** close_notify is written at most once, only after a completed handshake,
      and no record of any kind follows it. */
  lemma CloseNotifyIsLast(s: State, i: nat)
    requires Reachable(s) && i < |s.log| && s.log[i] == CloseNotify
    ensures i == |s.log| - 1
    ensures s.handshakeOK && s.closed.Some?
  {
    hide Reachable;
    ReachableInv(s);
  }

  /** Application data and close_notify are written only once the handshake
      has succeeded, and no handshake record comes after them. */
  lemma DataAfterHandshake(s: State, i: nat)
    requires Reachable(s) && i < |s.log| && s.log[i] != HandshakeData
    ensures s.handshakeOK
    ensures forall j :: i <= j < |s.log| ==> s.log[j] != HandshakeData
  {
    hide Reachable;
    ReachableInv(s);
  }

  /** Steps that a call of Close still has to take. */
  function CloseRank(pc: Pc): (n: nat)
  {
    match pc
    case CloseSwap => 7
    case CloseLoad => 6
    case CloseTryLock => 5
    case CloseLocked => 4
    case CloseRecord => 3
    case CloseUnlock => 2
    case CloseTransport => 1
    case _ => 0
  }

  /** Close never waits: whatever the other calls do, hold or block on, its next
      step can be taken, and at most seven of its own steps end it. */
  lemma CloseNeverWaits(s: State, c: Call, ok: bool, more: bool)
    requires c in s.pcs && (s.pcs[c].CloseSwap? || Closing(s.pcs[c]))
    ensures Step(s, c, Go(ok, more)).Some?
    ensures CloseRank(Step(s, c, Go(ok, more)).value.pcs[c]) < CloseRank(s.pcs[c]) <= 7
    ensures CloseRank(Step(s, c, Go(ok, more)).value.pcs[c]) == 0 ==> Step(s, c, Go(ok, more)).value.pcs[c] == Returned
  {
  }

  function MovesOf(c: Call, moves: seq<Move>): (n: nat)
  {
    if moves == [] then 0 else (if moves[0].call == c then 1 else 0) + MovesOf(c, moves[1..])
  }

  predicate InClose(pc: Pc)
  {
    pc.CloseSwap? || Closing(pc) || pc == Returned
  }

  lemma OnceMovesOne(s: State, c: Call, ok: bool, more: bool, d: Call)
    requires c in s.pcs && (s.pcs[c].Enter? || InsideOnce(s.pcs[c])) && OnceStep(s, c, ok, more).Some?
    requires d != c
    ensures d in OnceStep(s, c, ok, more).value.pcs <==> d in s.pcs
    ensures d in s.pcs ==> OnceStep(s, c, ok, more).value.pcs[d] == s.pcs[d]
  {
  }

  lemma DataMovesOne(s: State, c: Call, ok: bool, d: Call)
    requires c in s.pcs && AfterSuccess(s.pcs[c]) && DataStep(s, c, ok).Some?
    requires d != c
    ensures d in DataStep(s, c, ok).value.pcs <==> d in s.pcs
    ensures d in s.pcs ==> DataStep(s, c, ok).value.pcs[d] == s.pcs[d]
  {
  }

  lemma CloseMovesOne(s: State, c: Call, d: Call)
    requires c in s.pcs && (s.pcs[c].CloseSwap? || Closing(s.pcs[c]))
    requires d != c
    ensures d in CloseStep(s, c).pcs <==> d in s.pcs
    ensures d in s.pcs ==> CloseStep(s, c).pcs[d] == s.pcs[d]
  {
  }

  /** A step moves only the call that takes it. */
  lemma StepMovesOne(s: State, c: Call, choice: Choice, d: Call)
    requires Step(s, c, choice).Some? && d != c
    ensures d in Step(s, c, choice).value.pcs <==> d in s.pcs
    ensures d in s.pcs ==> Step(s, c, choice).value.pcs[d] == s.pcs[d]
  {
    hide OnceStep, DataStep, CloseStep;
    if choice.Go? {
      if s.pcs[c].Enter? || InsideOnce(s.pcs[c]) {
        OnceMovesOne(s, c, choice.ok, choice.more, d);
      } else if AfterSuccess(s.pcs[c]) {
        DataMovesOne(s, c, choice.ok, d);
      } else {
        CloseMovesOne(s, c, d);
      }
    }
  }

  lemma OwnStep(s: State, c: Call, choice: Choice)
    requires c in s.pcs && InClose(s.pcs[c]) && Step(s, c, choice).Some?
    ensures choice.Go? && s.pcs[c] != Returned
  {
    hide OnceStep, DataStep, CloseStep;
  }

  /** Close ends, over whole schedules: whatever the other calls do between its
      moves, every move of its own brings it nearer to its end, so that seven
      are enough; and until then its next one can always be taken. */
  lemma {:induction false} CloseReturns(s: State, c: Call, moves: seq<Move>)
    requires c in s.pcs && InClose(s.pcs[c]) && Run(s, moves).Some?
    ensures var s' := Run(s, moves).value;
            && c in s'.pcs && InClose(s'.pcs[c])
            && CloseRank(s'.pcs[c]) + MovesOf(c, moves) <= CloseRank(s.pcs[c]) <= 7
            && (MovesOf(c, moves) >= 7 ==> s'.pcs[c] == Returned)
            && (s'.pcs[c] != Returned ==> forall ok, more :: Step(s', c, Go(ok, more)).Some?)
    decreases |moves|
  {
    hide Step;
    if moves == [] {
      if s.pcs[c] != Returned {
        forall ok, more ensures Step(s, c, Go(ok, more)).Some? {
          CloseNeverWaits(s, c, ok, more);
        }
      }
    } else {
      var m := moves[0];
      if m.call != c {
        StepMovesOne(s, m.call, m.choice, c);
      } else {
        OwnStep(s, c, m.choice);
        CloseNeverWaits(s, c, m.choice.ok, m.choice.more);
        StaysInClose(s, c, m.choice.ok, m.choice.more);
      }
      CloseReturns(Step(s, m.call, m.choice).value, c, moves[1..]);
    }
  }

  lemma StaysInClose(s: State, c: Call, ok: bool, more: bool)
    requires c in s.pcs && (s.pcs[c].CloseSwap? || Closing(s.pcs[c]))
    ensures Step(s, c, Go(ok, more)).Some?
    ensures c in Step(s, c, Go(ok, more)).value.pcs && InClose(Step(s, c, Go(ok, more)).value.pcs[c])
  {
  }

  // ---- What a call writes -------------------------------------------------

  /** The records that the moves of call `c` begin to write. */
  function AddedBy(s: State, c: Call, moves: seq<Move>): (r: seq<Kind>)
    decreases |moves|
  {
    if moves == [] then []
    else match Step(s, moves[0].call, moves[0].choice)
      case None => []
      case Some(s') =>
        (if moves[0].call == c && |s'.log| > |s.log| then s'.log[|s.log|..] else []) + AddedBy(s', c, moves[1..])
  }

  /** The test that call `c` makes next comes out in its favour: Close finds the
      connection open, the handshake done and the mutex free, and Write finds
      the connection open and its records accepted. */
  predicate InFavour(s: State, c: Call, ok: bool)
    requires c in s.pcs
  {
    match s.pcs[c]
    case CloseSwap => s.closed.None?
    case CloseLoad => s.handshakeOK
    case CloseTryLock => s.outMu.None?
    case WriteCheck(_) => s.closed.None?
    case WriteRecord(_) => ok
    case _ => true
  }

  /** So do all its tests in a schedule. */
  predicate AllInFavour(s: State, c: Call, moves: seq<Move>)
    decreases |moves|
  {
    moves == [] ||
    (&& (moves[0].call == c && c in s.pcs && moves[0].choice.Go? ==> InFavour(s, c, moves[0].choice.ok))
     && match Step(s, moves[0].call, moves[0].choice)
        case None => true
        case Some(s') => AllInFavour(s', c, moves[1..]))
  }

  lemma StepLog(s: State, c: Call, choice: Choice)
    requires Step(s, c, choice).Some?
    ensures var log := Step(s, c, choice).value.log;
            log == s.log || exists k :: log == s.log + [k]
  {
  }

  lemma {:induction false} RunLog(s: State, moves: seq<Move>)
    requires Run(s, moves).Some?
    ensures s.log <= Run(s, moves).value.log
    decreases |moves|
  {
    hide Step;
    if moves != [] {
      StepLog(s, moves[0].call, moves[0].choice);
      RunLog(Step(s, moves[0].call, moves[0].choice).value, moves[1..]);
    }
  }

  /** What a call adds is in the log. */
  lemma {:induction false} AddedIsLogged(s: State, c: Call, moves: seq<Move>, k: Kind)
    requires Run(s, moves).Some? && k in AddedBy(s, c, moves)
    ensures k in Run(s, moves).value.log
    decreases |moves|
  {
    hide Step;
    if moves != [] {
      var s' := Step(s, moves[0].call, moves[0].choice).value;
      RunLog(s', moves[1..]);
      if k in AddedBy(s', c, moves[1..]) {
        AddedIsLogged(s', c, moves[1..], k);
      } else {
        assert k in s'.log;
      }
    }
  }

  predicate MayNotify(pc: Pc)
  {
    pc.CloseSwap? || BeforeNotify(pc)
  }

  lemma OwnCloseStep(s: State, c: Call, choice: Choice)
    requires c in s.pcs && InClose(s.pcs[c]) && Step(s, c, choice).Some?
    ensures choice.Go? && (s.pcs[c].CloseSwap? || Closing(s.pcs[c])) && Step(s, c, choice) == Some(CloseStep(s, c))
  {
    hide OnceStep, DataStep, CloseStep;
  }

  /** One own step of Close: the alert is still to come, is written, or has been
      given up. */
  lemma CloseStepAdds(s: State, c: Call, ok: bool)
    requires c in s.pcs && (s.pcs[c].CloseSwap? || Closing(s.pcs[c]))
    ensures var s' := CloseStep(s, c);
            && c in s'.pcs && InClose(s'.pcs[c])
            && s'.log == (if s.pcs[c].CloseLocked? then s.log + [CloseNotify] else s.log)
            && (MayNotify(s'.pcs[c]) <==> MayNotify(s.pcs[c]) && !s.pcs[c].CloseLocked? && InFavour(s, c, ok))
            && (!MayNotify(s.pcs[c]) || s.pcs[c].CloseLocked? ==> InFavour(s, c, ok))
  {
  }

  lemma {:induction false} CloseAdds(s: State, c: Call, moves: seq<Move>)
    requires c in s.pcs && InClose(s.pcs[c]) && Run(s, moves).Some?
    requires c in Run(s, moves).value.pcs && Run(s, moves).value.pcs[c] == Returned
    ensures AddedBy(s, c, moves) ==
            if MayNotify(s.pcs[c]) && AllInFavour(s, c, moves) then [CloseNotify] else []
    ensures !MayNotify(s.pcs[c]) ==> AllInFavour(s, c, moves)
    decreases |moves|
  {
    hide CloseStep, Step, InFavour;
    if moves != [] {
      var m := moves[0];
      var s' := Step(s, m.call, m.choice).value;
      if m.call != c {
        StepMovesOne(s, m.call, m.choice, c);
      } else {
        OwnCloseStep(s, c, m.choice);
        CloseStepAdds(s, c, m.choice.ok);
        assert s.pcs[c].CloseLocked? ==> s'.log[|s.log|..] == [CloseNotify];
      }
      CloseAdds(s', c, moves[1..]);
    }
  }

  /** In every schedule, a call of Close that has returned wrote the alert if it
      won the swap, found the handshake done when it looked and the mutex free
      when it tried, and else wrote nothing. */
  lemma CloseSends(s: State, c: Call, moves: seq<Move>)
    requires c in s.pcs && s.pcs[c] == CloseSwap && Run(s, moves).Some?
    requires c in Run(s, moves).value.pcs && Run(s, moves).value.pcs[c] == Returned
    ensures AllInFavour(s, c, moves) ==>
              AddedBy(s, c, moves) == [CloseNotify] && CloseNotify in Run(s, moves).value.log
    ensures !AllInFavour(s, c, moves) ==> AddedBy(s, c, moves) == []
  {
    hide Step, AllInFavour;
    CloseAdds(s, c, moves);
    if AllInFavour(s, c, moves) {
      AddedIsLogged(s, c, moves, CloseNotify);
    }
  }

  predicate Alone(c: Call, moves: seq<Move>)
  {
    forall i :: 0 <= i < |moves| ==> moves[i].call == c && moves[i].choice.Go?
  }

  lemma {:induction false} CloseAlone(s: State, c: Call, moves: seq<Move>)
    requires c in s.pcs && InClose(s.pcs[c]) && Alone(c, moves) && |moves| == CloseRank(s.pcs[c])
    requires s.pcs[c].CloseSwap? ==> s.closed.None?
    requires s.pcs[c].CloseSwap? || s.pcs[c].CloseLoad? ==> s.handshakeOK
    requires s.pcs[c].CloseSwap? || s.pcs[c].CloseLoad? || s.pcs[c].CloseTryLock? ==> s.outMu.None?
    ensures Run(s, moves).Some?
    ensures var s' := Run(s, moves).value;
            && c in s'.pcs && s'.pcs[c] == Returned
            && s'.log == s.log + (if MayNotify(s.pcs[c]) then [CloseNotify] else [])
    decreases |moves|
  {
    hide CloseStep, Step;
    if moves != [] {
      assert moves[0].call == c && moves[0].choice.Go?;
      CloseStepAlone(s, c);
      CloseEnabled(s, c, moves[0].choice);
      CloseAlone(CloseStep(s, c), c, moves[1..]);
    }
  }

  lemma CloseEnabled(s: State, c: Call, choice: Choice)
    requires c in s.pcs && (s.pcs[c].CloseSwap? || Closing(s.pcs[c])) && choice.Go?
    ensures Step(s, c, choice) == Some(CloseStep(s, c))
  {
    hide OnceStep, DataStep, CloseStep;
  }

  lemma CloseStepAlone(s: State, c: Call)
    requires c in s.pcs && (s.pcs[c].CloseSwap? || Closing(s.pcs[c])) && InFavour(s, c, true)
    ensures var s' := CloseStep(s, c);
            && c in s'.pcs && InClose(s'.pcs[c]) && CloseRank(s'.pcs[c]) + 1 == CloseRank(s.pcs[c])
            && s'.handshakeOK == s.handshakeOK
            && (s'.pcs[c].CloseLoad? || s'.pcs[c].CloseTryLock? ==> s'.outMu == s.outMu)
            && s'.log == (if s.pcs[c].CloseLocked? then s.log + [CloseNotify] else s.log)
            && (MayNotify(s'.pcs[c]) <==> MayNotify(s.pcs[c]) && !s.pcs[c].CloseLocked?)
  {
  }

  /** On a connection that is open and idle after its handshake, the seven steps
      of Close end in the alert. */
  lemma CloseAloneNotifies(s: State, c: Call, moves: seq<Move>)
    requires Reachable(s) && s.handshakeOK && s.outMu == None && s.closed == None
    requires c in s.pcs && s.pcs[c] == CloseSwap && Alone(c, moves) && |moves| == 7
    ensures Run(s, moves).Some?
    ensures var s' := Run(s, moves).value;
            c in s'.pcs && s'.pcs[c] == Returned && s'.log == s.log + [CloseNotify]
  {
    hide Step, Reachable;
    CloseAlone(s, c, moves);
  }

  // ---- Write --------------------------------------------------------------

  predicate InWrite(pc: Pc)
  {
    (pc.Ready? && pc.op.DoWrite?) || pc.WriteCheck? || pc.WriteLoop? || pc.WriteRecord? || pc == Returned
  }

  /** Records that a Write has still to begin. */
  function Planned(pc: Pc): (n: nat)
  {
    match pc
    case Ready(DoWrite(n)) => n
    case WriteCheck(n) => n
    case WriteLoop(n) => n
    case WriteRecord(n) => n
    case _ => 0
  }

  function DataRecords(n: nat): (r: seq<Kind>)
    ensures |r| == n
  {
    if n == 0 then [] else [ApplicationData] + DataRecords(n - 1)
  }

  lemma WriteStepAdds(s: State, c: Call, ok: bool)
    requires c in s.pcs && InWrite(s.pcs[c]) && AfterSuccess(s.pcs[c]) && DataStep(s, c, ok).Some?
    ensures var s' := DataStep(s, c, ok).value;
            && c in s'.pcs && InWrite(s'.pcs[c])
            && (if s.pcs[c].WriteLoop? && s.pcs[c].left > 0
                then s'.log == s.log + [ApplicationData] && Planned(s'.pcs[c]) + 1 == Planned(s.pcs[c])
                else s'.log == s.log && Planned(s'.pcs[c]) <= Planned(s.pcs[c]))
            && (InFavour(s, c, ok) && !s.pcs[c].WriteLoop? ==> Planned(s'.pcs[c]) == Planned(s.pcs[c]))
  {
  }

  lemma OwnWriteStep(s: State, c: Call, choice: Choice)
    requires c in s.pcs && InWrite(s.pcs[c]) && Step(s, c, choice).Some?
    ensures choice.Go? && AfterSuccess(s.pcs[c]) && Step(s, c, choice) == DataStep(s, c, choice.ok)
  {
    hide OnceStep, DataStep, CloseStep;
  }

  /** In every schedule, a Write that goes on behind the handshake begins only
      application data, no more records than it has, and all of them if it finds
      the connection open and none of its records fails. */
  lemma {:induction false} WriteAdds(s: State, c: Call, moves: seq<Move>)
    requires c in s.pcs && InWrite(s.pcs[c]) && Run(s, moves).Some?
    requires c in Run(s, moves).value.pcs && Run(s, moves).value.pcs[c] == Returned
    ensures var n := |AddedBy(s, c, moves)|;
            n <= Planned(s.pcs[c]) && AddedBy(s, c, moves) == DataRecords(n)
    ensures AllInFavour(s, c, moves) ==> |AddedBy(s, c, moves)| == Planned(s.pcs[c])
    decreases |moves|
  {
    hide OnceStep, DataStep, CloseStep, Step, InFavour;
    if moves != [] {
      var m := moves[0];
      var s' := Step(s, m.call, m.choice).value;
      if m.call != c {
        StepMovesOne(s, m.call, m.choice, c);
      } else {
        OwnWriteStep(s, c, m.choice);
        WriteStepAdds(s, c, m.choice.ok);
        assert s'.log != s.log ==> s'.log[|s.log|..] == [ApplicationData];
      }
      WriteAdds(s', c, moves[1..]);
    }
  }

  // ---- One handshake ------------------------------------------------------

  lemma OnceForward(s: State, c: Call, choice: Choice)
    requires Step(s, c, choice).Some? && Inv(s)
    ensures var once := Step(s, c, choice).value.once;
            && (s.once.Done? ==> once == s.once)
            && (s.once.Running? ==> once == s.once || once.Done?)
  {
    hide LogShape, CloseStep, DataStep;
    if choice.Go? && !(s.pcs[c].Enter? || InsideOnce(s.pcs[c])) {
      OthersKeepOnce(s, c, choice.ok);
    } else if choice.Go? {
      assert CallInv(s, c);
    }
  }

  lemma OthersKeepOnce(s: State, c: Call, ok: bool)
    requires c in s.pcs
    ensures AfterSuccess(s.pcs[c]) && DataStep(s, c, ok).Some? ==> DataStep(s, c, ok).value.once == s.once
    ensures s.pcs[c].CloseSwap? || Closing(s.pcs[c]) ==> CloseStep(s, c).once == s.once
  {
  }

  lemma OthersWriteNone(s: State, c: Call, ok: bool)
    requires c in s.pcs
    ensures AfterSuccess(s.pcs[c]) && DataStep(s, c, ok).Some? ==>
              DataStep(s, c, ok).value.log != s.log + [HandshakeData]
    ensures s.pcs[c].CloseSwap? || Closing(s.pcs[c]) ==> CloseStep(s, c).log != s.log + [HandshakeData]
  {
    assert (s.log + [ApplicationData])[|s.log|] == ApplicationData;
    assert (s.log + [CloseNotify])[|s.log|] == CloseNotify;
    assert (s.log + [HandshakeData])[|s.log|] == HandshakeData;
  }

  lemma OnceWrites(s: State, c: Call, ok: bool, more: bool)
    requires c in s.pcs && (s.pcs[c].Enter? || InsideOnce(s.pcs[c])) && OnceStep(s, c, ok, more).Some?
    requires OnceStep(s, c, ok, more).value.log == s.log + [HandshakeData]
    ensures s.pcs[c].Handshaking? && OnceStep(s, c, ok, more).value.once == s.once
  {
  }

  /** A handshake record is written from inside the once. */
  lemma HandshakeStep(s: State, c: Call, choice: Choice)
    requires Step(s, c, choice).Some? && Inv(s)
    requires Step(s, c, choice).value.log == s.log + [HandshakeData]
    ensures s.once == Running(c) && Step(s, c, choice).value.once == Running(c)
  {
    hide LogShape, SharedInv, OnceStep, DataStep, CloseStep;
    if choice.Go? {
      assert CallInv(s, c);
      if s.pcs[c].Enter? || InsideOnce(s.pcs[c]) {
        OnceWrites(s, c, choice.ok, choice.more);
      } else {
        OthersWriteNone(s, c, choice.ok);
      }
    }
  }

  /** Once another call runs or has run the handshake, `c` writes none of it. */
  lemma {:induction false} NotTheRunner(s: State, c: Call, moves: seq<Move>)
    requires Run(s, moves).Some? && Inv(s)
    requires s.once.Done? || (s.once.Running? && s.once.runner != c)
    ensures HandshakeData !in AddedBy(s, c, moves)
    decreases |moves|
  {
    hide Step, Inv;
    if moves != [] {
      var m := moves[0];
      var s' := Step(s, m.call, m.choice).value;
      StepKeepsInv(s, m.call, m.choice);
      OnceForward(s, m.call, m.choice);
      StepLog(s, m.call, m.choice);
      if s'.log == s.log + [HandshakeData] {
        HandshakeStep(s, m.call, m.choice);
      }
      NotTheRunner(s', c, moves[1..]);
    }
  }

  /** In every run all handshake records come from one call: the handshake runs
      at most once, whatever calls compete for it. */
  lemma {:induction false} OneHandshake(s: State, moves: seq<Move>, c: Call, d: Call)
    requires Run(s, moves).Some? && Inv(s) && c != d
    requires HandshakeData in AddedBy(s, c, moves)
    ensures HandshakeData !in AddedBy(s, d, moves)
    decreases |moves|
  {
    hide Step, Inv;
    if moves != [] {
      var m := moves[0];
      var s' := Step(s, m.call, m.choice).value;
      StepKeepsInv(s, m.call, m.choice);
      StepLog(s, m.call, m.choice);
      if s'.log == s.log + [HandshakeData] {
        HandshakeStep(s, m.call, m.choice);
      }
      if m.call == c && s'.log == s.log + [HandshakeData] {
        NotTheRunner(s', d, moves[1..]);
      } else if m.call == d && s'.log == s.log + [HandshakeData] {
        NotTheRunner(s', c, moves[1..]);
      } else {
        OneHandshake(s', moves[1..], c, d);
      }
    }
  }

  /** Closed before a handshake got under way. */
  predicate ClosedEarly(s: State)
  {
    && s.closed.Some? && !s.handshakeOK
    && match s.once
       case NotRun => true
       case Running(r) => r in s.pcs && (s.pcs[r].InOnce? || (s.pcs[r].Stored? && !s.pcs[r].ok))
       case Done(ok) => !ok
  }

  lemma OnceStaysSilent(s: State, c: Call, ok: bool, more: bool)
    requires c in s.pcs && (s.pcs[c].Enter? || InsideOnce(s.pcs[c])) && OnceStep(s, c, ok, more).Some?
    requires CallInv(s, c) && ClosedEarly(s)
    ensures ClosedEarly(OnceStep(s, c, ok, more).value) && OnceStep(s, c, ok, more).value.log == s.log
  {
  }

  lemma CloseStaysSilent(s: State, c: Call)
    requires c in s.pcs && (s.pcs[c].CloseSwap? || Closing(s.pcs[c]))
    requires CallInv(s, c) && ClosedEarly(s)
    ensures ClosedEarly(CloseStep(s, c)) && CloseStep(s, c).log == s.log
  {
  }

  lemma StepStaysSilent(s: State, c: Call, choice: Choice)
    requires Inv(s) && Step(s, c, choice).Some? && ClosedEarly(s)
    ensures ClosedEarly(Step(s, c, choice).value) && Step(s, c, choice).value.log == s.log
  {
    hide OnceStep, DataStep, CloseStep, SharedInv, LogShape;
    if choice.Go? {
      assert CallInv(s, c);
      if s.pcs[c].Enter? || InsideOnce(s.pcs[c]) {
        OnceStaysSilent(s, c, choice.ok, choice.more);
      } else if !AfterSuccess(s.pcs[c]) {
        CloseStaysSilent(s, c);
      }
    }
  }

  /** Whatever is called on a connection that was closed before its handshake got
      under way, no record of any kind is ever written. */
  lemma {:induction false} ClosedStaysSilent(s: State, moves: seq<Move>)
    requires Inv(s) && ClosedEarly(s) && Run(s, moves).Some?
    ensures Run(s, moves).value.log == s.log
    decreases |moves|
  {
    hide Step, Inv, ClosedEarly;
    if moves != [] {
      StepKeepsInv(s, moves[0].call, moves[0].choice);
      StepStaysSilent(s, moves[0].call, moves[0].choice);
      ClosedStaysSilent(Step(s, moves[0].call, moves[0].choice).value, moves[1..]);
    }
  }

  // ---- No deadlock --------------------------------------------------------

  /** Close never enters the once, and only Read and Write go on behind it. */
  predicate OpFits(pc: Pc)
  {
    && (pc.Enter? || InsideOnce(pc) ==> !pc.op.DoClose?)
    && (pc.Ready? ==> pc.op.DoRead? || pc.op.DoWrite?)
  }

  lemma OnceKeepsOp(s: State, c: Call, ok: bool, more: bool)
    requires c in s.pcs && (s.pcs[c].Enter? || InsideOnce(s.pcs[c])) && OnceStep(s, c, ok, more).Some?
    requires OpFits(s.pcs[c])
    ensures c in OnceStep(s, c, ok, more).value.pcs && OpFits(OnceStep(s, c, ok, more).value.pcs[c])
  {
  }

  lemma DataKeepsOp(s: State, c: Call, ok: bool)
    requires c in s.pcs && AfterSuccess(s.pcs[c]) && DataStep(s, c, ok).Some?
    ensures c in DataStep(s, c, ok).value.pcs && OpFits(DataStep(s, c, ok).value.pcs[c])
  {
  }

  lemma CloseKeepsOp(s: State, c: Call)
    requires c in s.pcs && (s.pcs[c].CloseSwap? || Closing(s.pcs[c]))
    ensures c in CloseStep(s, c).pcs && OpFits(CloseStep(s, c).pcs[c])
  {
  }

  lemma StepKeepsOp(s: State, c: Call, choice: Choice)
    requires Step(s, c, choice).Some? && (c in s.pcs ==> OpFits(s.pcs[c]))
    ensures c in Step(s, c, choice).value.pcs && OpFits(Step(s, c, choice).value.pcs[c])
  {
    hide OnceStep, DataStep, CloseStep;
    if choice.Go? {
      if s.pcs[c].Enter? || InsideOnce(s.pcs[c]) {
        OnceKeepsOp(s, c, choice.ok, choice.more);
      } else if AfterSuccess(s.pcs[c]) {
        DataKeepsOp(s, c, choice.ok);
      } else {
        CloseKeepsOp(s, c);
      }
    }
  }

  lemma {:induction false} RunKeepsOps(s: State, moves: seq<Move>)
    requires Run(s, moves).Some? && forall c :: c in s.pcs ==> OpFits(s.pcs[c])
    ensures forall c :: c in Run(s, moves).value.pcs ==> OpFits(Run(s, moves).value.pcs[c])
    decreases |moves|
  {
    hide Step, OpFits;
    if moves != [] {
      var m := moves[0];
      var s' := Step(s, m.call, m.choice).value;
      StepKeepsOp(s, m.call, m.choice);
      forall d | d in s'.pcs ensures OpFits(s'.pcs[d]) {
        if d != m.call {
          StepMovesOne(s, m.call, m.choice, d);
        }
      }
      RunKeepsOps(s', moves[1..]);
    }
  }

  /** Whoever holds the once or a mutex can go on. */
  lemma HolderMoves(s: State, c: Call, ok: bool, more: bool)
    requires c in s.pcs && (InsideOnce(s.pcs[c]) || HoldsOut(s.pcs[c]) || s.pcs[c].Reading?)
    ensures Step(s, c, Go(ok, more)).Some?
  {
  }

  /** The call that `c` waits for, or `c` itself. */
  function Blocker(s: State, c: Call): (d: Call)
    requires c in s.pcs
  {
    match s.pcs[c]
    case Enter(_) => if s.once.Running? then s.once.runner else c
    case Ready(op) =>
      if op.DoRead? && s.inMu.Some? then s.inMu.value
      else if op.DoWrite? && s.outMu.Some? then s.outMu.value
      else c
    case _ => c
  }

  lemma BlockerMoves(s: State, c: Call, ok: bool, more: bool)
    requires Inv(s) && c in s.pcs && OpFits(s.pcs[c]) && s.pcs[c] != Returned
    ensures Blocker(s, c) in s.pcs && Step(s, Blocker(s, c), Go(ok, more)).Some?
  {
    hide OnceStep, CloseStep, LogShape;
    var d := Blocker(s, c);
    assert d in s.pcs && CallInv(s, d);
    if d != c || InsideOnce(s.pcs[c]) || HoldsOut(s.pcs[c]) || s.pcs[c].Reading? {
      HolderMoves(s, d, ok, more);
    } else {
      FreeMoves(s, c, ok, more);
    }
  }

  lemma FreeMoves(s: State, c: Call, ok: bool, more: bool)
    requires c in s.pcs && OpFits(s.pcs[c]) && s.pcs[c] != Returned && Blocker(s, c) == c
    requires !InsideOnce(s.pcs[c]) && !HoldsOut(s.pcs[c]) && !s.pcs[c].Reading?
    requires s.once.Running? ==> s.once.runner != c
    requires s.outMu != Some(c) && s.inMu != Some(c)
    ensures Step(s, c, Go(ok, more)).Some?
  {
  }

  /** There is no deadlock: in every reachable state with a call that has not
      returned, that call or the one it waits for can take a step. */
  lemma SomeoneMoves(s: State, c: Call)
    requires Reachable(s) && c in s.pcs && s.pcs[c] != Returned
    ensures Blocker(s, c) in s.pcs && forall ok, more :: Step(s, Blocker(s, c), Go(ok, more)).Some?
  {
    hide Step, Inv, OpFits, Blocker;
    var moves :| Run(INITIAL, moves) == Some(s);
    RunKeepsOps(INITIAL, moves);
    ReachableInv(s);
    BlockerMoves(s, c, true, true);
    forall ok, more ensures Step(s, Blocker(s, c), Go(ok, more)).Some? {
      BlockerMoves(s, c, ok, more);
    }
  }
}
