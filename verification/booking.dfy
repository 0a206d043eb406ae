/** The booking protocol: any number of runs deliver their reports to one daemon through one FIFO
    (src/daemon/daemon.c, src/daemon/daemon_socket.c). Each step is one system call of a run or of
    the daemon; any enabled step may come next. */
module Booking {
  import opened Transfer

  /** The signal that answers a booking. */
  datatype Response = OkNewFile | OkFileExists | CantWrite

  /** How far a run has got: from starting to book, through waiting for the signal, the polling loop
      having noticed it, and writing into the FIFO, to having closed it or given up. */
  datatype Phase = Starting | Waiting | Signalled(response: Response) | Opening | Writing(written: nat)
                 | Closed | Failed

  datatype Client = Client(file: string, report: string, phase: Phase)

  datatype Message = Message(pid: nat, file: string)

  /** Where the daemon is: in msgrcv, in handle_message before and after opening the log, in opening
      the FIFO, and in copy_stream with the bytes it has read and not yet written. */
  datatype Daemon = Receiving | Handling(m: Message) | LogOpen(m: Message, existed: bool) | OpeningFifo(m: Message)
                  | Copying(m: Message, buffer: string)

  /** arrived, booked, handled and accepted are history: the runs, the order of their bookings, the
      order in which the daemon was done with them, and those whose reports it has copied. */
  datatype System = System(
    clients: map<nat, Client>, queue: seq<Message>, daemon: Daemon, fifo: string, files: map<string, string>,
    arrived: seq<nat>, booked: seq<nat>, handled: seq<nat>, accepted: set<nat>)

  datatype Step =
    | Arrive(pid: nat, file: string, report: string)
    | SendBooking(pid: nat)
    | Receive
    | OpenLog
    | CantOpenLog
    | Notify
    | NoticeSignal(pid: nat)
    | Rendezvous(pid: nat)
    | Write(pid: nat, n: nat)
    | CloseFifo(pid: nat)
    | BrokenPipe(pid: nat)
    | Read(n: nat)
    | Append
    | EndOfFile

  predicate Has(s: System, pid: nat, phase: Phase) {
    pid in s.clients && s.clients[pid].phase == phase
  }

  function Move(s: System, pid: nat, phase: Phase): map<nat, Client>
    requires pid in s.clients
  {
    s.clients[pid := s.clients[pid].(phase := phase)]
  }

  ghost predicate IsWriting(s: System, pid: nat) {
    pid in s.clients && s.clients[pid].phase.Writing?
  }

  ghost predicate Enabled(s: System, step: Step) {
    match step
    case Arrive(pid, _, _) => pid !in s.clients
    case SendBooking(pid) => Has(s, pid, Starting)
    case Receive => s.daemon.Receiving? && s.queue != []
    case OpenLog => s.daemon.Handling?
    case CantOpenLog => s.daemon.Handling? && s.daemon.m.pid in s.clients
    case Notify => s.daemon.LogOpen? && s.daemon.m.pid in s.clients
    case NoticeSignal(pid) => pid in s.clients && s.clients[pid].phase.Signalled?
    case Rendezvous(pid) => Has(s, pid, Opening) && (s.daemon.OpeningFifo? || s.daemon.Copying?)
    case Write(pid, n) =>
      IsWriting(s, pid) && s.daemon.Copying? && 0 < n && s.clients[pid].phase.written + n <= |s.clients[pid].report|
    case CloseFifo(pid) => IsWriting(s, pid) && s.clients[pid].phase.written == |s.clients[pid].report|
    case BrokenPipe(pid) => IsWriting(s, pid) && !s.daemon.Copying?
    case Read(n) => s.daemon.Copying? && s.daemon.buffer == "" && 0 < n <= COPY_BUFFER && n <= |s.fifo|
    case Append => s.daemon.Copying? && s.daemon.buffer != "" && s.daemon.m.file in s.files
    case EndOfFile => s.daemon.Copying? && s.daemon.buffer == "" && s.fifo == "" && forall pid :: !IsWriting(s, pid)
  }

  ghost function Next(s: System, step: Step): System
    requires Enabled(s, step)
  {
    match step
    case Arrive(pid, file, report) =>
      s.(clients := s.clients[pid := Client(file, report, Starting)], arrived := s.arrived + [pid])
    case SendBooking(pid) =>
      s.(clients := Move(s, pid, Waiting), queue := s.queue + [Message(pid, s.clients[pid].file)],
         booked := s.booked + [pid])
    case Receive => s.(daemon := Handling(s.queue[0]), queue := s.queue[1..])
    case OpenLog =>
      var f := s.daemon.m.file;
      s.(daemon := LogOpen(s.daemon.m, f in s.files), files := if f in s.files then s.files else s.files[f := ""])
    case CantOpenLog =>
      var pid := s.daemon.m.pid;
      s.(daemon := Receiving, clients := Move(s, pid, Signalled(CantWrite)), handled := s.handled + [pid])
    case Notify =>
      var response := if s.daemon.existed then OkFileExists else OkNewFile;
      s.(daemon := OpeningFifo(s.daemon.m), clients := Move(s, s.daemon.m.pid, Signalled(response)))
    case NoticeSignal(pid) =>
      s.(clients := Move(s, pid, if s.clients[pid].phase.response == CantWrite then Failed else Opening))
    case Rendezvous(pid) =>
      s.(clients := Move(s, pid, Writing(0)),
         daemon := if s.daemon.OpeningFifo? then Copying(s.daemon.m, "") else s.daemon)
    case Write(pid, n) =>
      var w := s.clients[pid].phase.written;
      s.(clients := Move(s, pid, Writing(w + n)), fifo := s.fifo + s.clients[pid].report[w..w + n])
    case CloseFifo(pid) => s.(clients := Move(s, pid, Closed))
    case BrokenPipe(pid) => s.(clients := Move(s, pid, Failed))
    case Read(n) => s.(daemon := s.daemon.(buffer := s.fifo[..n]), fifo := s.fifo[n..])
    case Append =>
      var f := s.daemon.m.file;
      s.(daemon := s.daemon.(buffer := ""), files := s.files[f := s.files[f] + s.daemon.buffer])
    case EndOfFile =>
      s.(daemon := Receiving, handled := s.handled + [s.daemon.m.pid], accepted := s.accepted + {s.daemon.m.pid})
  }

  ghost predicate Init(s: System, files0: map<string, string>) {
    s == System(map[], [], Receiving, "", files0, [], [], [], {})
  }

  // ---- what every state of every run satisfies

  /** Between its OK signal and closing the FIFO. */
  predicate InService(c: Client) {
    (c.phase.Signalled? && c.phase.response != CantWrite) || c.phase.Opening? || c.phase.Writing?
  }

  /** The pid whose booking the daemon is handling. */
  function Busy(d: Daemon): seq<nat> {
    if d.Receiving? then [] else [d.m.pid]
  }

  function Pids(ms: seq<Message>): (pids: seq<nat>)
    ensures |pids| == |ms| && forall i :: 0 <= i < |ms| ==> pids[i] == ms[i].pid
  {
    seq(|ms|, i requires 0 <= i < |ms| => ms[i].pid)
  }

  /** Bookings are answered one at a time, in the order in which they were made. */
  ghost predicate InOrder(s: System) {
    && s.booked == s.handled + Busy(s.daemon) + Pids(s.queue)
    && Once(s.booked)
    && forall pid :: pid in s.accepted ==> pid in s.handled
  }

  ghost predicate Once(pids: seq<nat>) {
    forall i, j :: 0 <= i < j < |pids| ==> pids[i] != pids[j]
  }

  /** What the phase of a booked client must be, from the state of its booking. */
  ghost predicate MessageOk(s: System, m: Message, d: Daemon) {
    && m.pid in s.clients && s.clients[m.pid].file == m.file
    && var phase := s.clients[m.pid].phase;
       match d
       case OpeningFifo(_) => InService(s.clients[m.pid]) && !phase.Writing?
       case Copying(_, _) => phase.Writing? || phase.Closed?
       case _ => phase.Waiting?
  }

  ghost predicate PhasesOk(s: System) {
    && QueuedOk(s) && BookedOk(s)
    && (!s.daemon.Receiving? ==> MessageOk(s, s.daemon.m, s.daemon))
    && (forall i :: 0 <= i < |s.handled| ==> OutcomeOk(s, s.handled[i]))
  }

  ghost predicate QueuedOk(s: System) {
    forall i :: 0 <= i < |s.queue| ==> MessageOk(s, s.queue[i], Receiving)
  }

  ghost predicate BookedOk(s: System) {
    forall pid :: pid in s.booked <==> pid in s.clients && !s.clients[pid].phase.Starting?
  }

  ghost predicate OutcomeOk(s: System, pid: nat) {
    && pid in s.clients
    && var phase := s.clients[pid].phase;
       if pid in s.accepted then phase.Closed? else phase == Signalled(CantWrite) || phase.Failed?
  }

  /** Mutual exclusion: a client in service is the one the daemon is serving. */
  ghost predicate Exclusive(s: System) {
    forall pid :: pid in s.clients && InService(s.clients[pid]) ==>
      (s.daemon.OpeningFifo? || s.daemon.Copying?) && s.daemon.m.pid == pid
  }

  /** The bytes a client has handed to the FIFO. */
  function Written(c: Client): string
    requires c.phase.Writing? ==> c.phase.written <= |c.report|
  {
    if c.phase.Writing? then c.report[..c.phase.written] else if c.phase.Closed? then c.report else ""
  }

  /** Every client writes a prefix of its report, and the FIFO is empty unless it is being copied. */
  ghost predicate TransferOk(s: System) {
    && (forall pid :: pid in s.clients && s.clients[pid].phase.Writing? ==>
          s.clients[pid].phase.written <= |s.clients[pid].report|)
    && (!s.daemon.Copying? ==> s.fifo == "")
    && (s.daemon.LogOpen? || s.daemon.OpeningFifo? || s.daemon.Copying? ==> s.daemon.m.file in s.files)
  }

  /** The complete reports for a log, in the order of service. */
  ghost function Reports(handled: seq<nat>, accepted: set<nat>, clients: map<nat, Client>, file: string): string {
    if handled == [] then ""
    else
      var pid := handled[|handled| - 1];
      Reports(handled[..|handled| - 1], accepted, clients, file)
      + if pid in accepted && pid in clients && clients[pid].file == file then clients[pid].report else ""
  }

  ghost function OldContent(files0: map<string, string>, file: string): string {
    if file in files0 then files0[file] else ""
  }

  /** Each log is its old content and the complete reports of the clients served for it, in order,
      and for the client being served the bytes that are neither in the FIFO nor in the buffer. */
  ghost predicate LogOk(s: System, files0: map<string, string>, file: string)
    requires TransferOk(s)
  {
    var complete := OldContent(files0, file) + Reports(s.handled, s.accepted, s.clients, file);
    if s.daemon.Copying? && s.daemon.m.file == file && s.daemon.m.pid in s.clients then
      && file in s.files && s.files[file] + s.daemon.buffer + s.fifo == complete + Written(s.clients[s.daemon.m.pid])
      && |s.daemon.buffer| + |s.fifo| <= |Written(s.clients[s.daemon.m.pid])|
    else OldContent(s.files, file) == complete && (file in files0 ==> file in s.files)
  }

  ghost predicate LogsOk(s: System, files0: map<string, string>)
    requires TransferOk(s)
  {
    forall file :: LogOk(s, files0, file)
  }

  /** Each run arrives once. */
  ghost predicate ArrivedOk(s: System) {
    Once(s.arrived) && forall pid :: pid in s.arrived <==> pid in s.clients
  }

  ghost predicate Inv(s: System, files0: map<string, string>) {
    ArrivedOk(s) && InOrder(s) && PhasesOk(s) && Exclusive(s) && TransferOk(s) && LogsOk(s, files0)
  }

  // ---- every step keeps it

  lemma StartsInv(s: System, files0: map<string, string>)
    requires Init(s, files0)
    ensures Inv(s, files0)
  {
  }

  lemma OrderKept(s: System, step: Step)
    requires InOrder(s) && PhasesOk(s) && Enabled(s, step)
    ensures InOrder(Next(s, step))
  {
    var t := Next(s, step);
    match step {
      case SendBooking(pid) =>
        assert Pids(t.queue) == Pids(s.queue) + [pid];
        OneMore(s.booked, pid);
      case Receive =>
        assert Pids(s.queue) == [s.queue[0].pid] + Pids(t.queue);
        Shift(s.handled, s.queue[0].pid, Pids(t.queue));
      case CantOpenLog =>
        assert t.handled == s.handled + [s.daemon.m.pid];
        Shift(s.handled, s.daemon.m.pid, Pids(s.queue));
      case EndOfFile =>
        assert t.handled == s.handled + [s.daemon.m.pid];
        Shift(s.handled, s.daemon.m.pid, Pids(s.queue));
      case _ =>
    }
    hide Once, Pids, PhasesOk;
  }

  lemma ArrivedKept(s: System, step: Step)
    requires ArrivedOk(s) && Enabled(s, step)
    ensures ArrivedOk(Next(s, step))
  {
    if step.Arrive? {
      OneMore(s.arrived, step.pid);
    }
  }

  lemma Shift(a: seq<nat>, x: nat, b: seq<nat>)
    ensures a + [] + ([x] + b) == a + [x] + b == (a + [x]) + [] + b
  {
  }

  lemma OneMore(pids: seq<nat>, pid: nat)
    requires Once(pids) && pid !in pids
    ensures Once(pids + [pid])
  {
  }

  lemma QueuedKept(s: System, step: Step)
    requires InOrder(s) && PhasesOk(s) && Enabled(s, step)
    ensures QueuedOk(Next(s, step))
  {
    hide InOrder, BookedOk, OutcomeOk, Pids;
    BookedApart(s);
  }

  lemma BookedKept(s: System, step: Step)
    requires PhasesOk(s) && Enabled(s, step)
    ensures BookedOk(Next(s, step))
  {
    hide QueuedOk;
  }

  lemma HandKept(s: System, step: Step)
    requires PhasesOk(s) && Exclusive(s) && Enabled(s, step)
    ensures !Next(s, step).daemon.Receiving? ==> MessageOk(Next(s, step), Next(s, step).daemon.m, Next(s, step).daemon)
  {
    hide BookedOk;
  }

  lemma HandledKept(s: System, step: Step)
    requires InOrder(s) && PhasesOk(s) && Exclusive(s) && Enabled(s, step)
    ensures forall i :: 0 <= i < |Next(s, step).handled| ==> OutcomeOk(Next(s, step), Next(s, step).handled[i])
  {
    hide InOrder, QueuedOk, BookedOk, Pids;
    BookedApart(s);
    NotYetAccepted(s);
    assert step.EndOfFile? ==> !IsWriting(s, s.daemon.m.pid);
  }

  /** Where a booking stands among all bookings. */
  lemma Positions(s: System)
    requires InOrder(s)
    ensures var h, n := |s.handled|, |s.handled| + |Busy(s.daemon)|;
            && |s.booked| == n + |s.queue|
            && (forall i :: 0 <= i < h ==> s.booked[i] == s.handled[i])
            && (!s.daemon.Receiving? ==> n == h + 1 && s.booked[h] == s.daemon.m.pid)
            && (forall i :: 0 <= i < |s.queue| ==> s.booked[n + i] == s.queue[i].pid)
  {
  }

  /** The bookings in the queue, in the daemon's hands and already handled are different ones. */
  lemma BookedApart(s: System)
    requires InOrder(s)
    ensures forall i, j :: 0 <= i < j < |s.queue| ==> s.queue[i].pid != s.queue[j].pid
    ensures forall i :: 0 <= i < |s.queue| ==> s.queue[i].pid in s.booked
    ensures forall i :: 0 <= i < |s.handled| ==> s.handled[i] in s.booked
    ensures forall i, j :: 0 <= i < |s.handled| && 0 <= j < |s.queue| ==> s.handled[i] != s.queue[j].pid
    ensures !s.daemon.Receiving? ==> s.daemon.m.pid in s.booked
    ensures !s.daemon.Receiving? ==> forall i :: 0 <= i < |s.queue| ==> s.queue[i].pid != s.daemon.m.pid
    ensures !s.daemon.Receiving? ==> forall i :: 0 <= i < |s.handled| ==> s.handled[i] != s.daemon.m.pid
  {
    Positions(s);
    assert Once(s.booked);
    hide InOrder, Busy, Pids;
  }

  lemma NotYetAccepted(s: System)
    requires InOrder(s)
    ensures !s.daemon.Receiving? ==> s.daemon.m.pid !in s.accepted
  {
    BookedApart(s);
  }

  lemma ExclusiveKept(s: System, step: Step, files0: map<string, string>)
    requires Inv(s, files0) && Enabled(s, step)
    ensures Exclusive(Next(s, step))
  {
    hide LogsOk, InOrder, QueuedOk, BookedOk, OutcomeOk, ArrivedOk, TransferOk, Once;
    assert step.EndOfFile? ==> !IsWriting(s, s.daemon.m.pid);
  }

  lemma TransferKept(s: System, step: Step, files0: map<string, string>)
    requires Inv(s, files0) && Enabled(s, step)
    ensures TransferOk(Next(s, step))
  {
    hide LogsOk, InOrder, QueuedOk, BookedOk, OutcomeOk, ArrivedOk, Once;
  }

  // ---- the logs

  /** A run never changes its log file or its report. */
  ghost predicate SameRuns(c1: map<nat, Client>, c2: map<nat, Client>) {
    forall pid :: pid in c1 ==> pid in c2 && c2[pid].file == c1[pid].file && c2[pid].report == c1[pid].report
  }

  lemma {:induction false} ReportsSame(handled: seq<nat>, a1: set<nat>, a2: set<nat>, c1: map<nat, Client>,
      c2: map<nat, Client>,
    file: string)
    requires SameRuns(c1, c2)
    requires forall i :: 0 <= i < |handled| ==> handled[i] in c1 && (handled[i] in a1 <==> handled[i] in a2)
    ensures Reports(handled, a2, c2, file) == Reports(handled, a1, c1, file)
  {
    if handled != [] {
      ReportsSame(handled[..|handled| - 1], a1, a2, c1, c2, file);
    }
  }

  lemma RunsKept(s: System, step: Step, file: string)
    requires InOrder(s) && PhasesOk(s) && Enabled(s, step)
    ensures SameRuns(s.clients, Next(s, step).clients)
    ensures Reports(s.handled, Next(s, step).accepted, Next(s, step).clients, file)
         == Reports(s.handled, s.accepted, s.clients, file)
  {
    hide InOrder, QueuedOk, BookedOk, Pids;
    BookedApart(s);
    ReportsSame(s.handled, s.accepted, Next(s, step).accepted, s.clients, Next(s, step).clients, file);
  }

  lemma ReportsSnoc(handled: seq<nat>, pid: nat, accepted: set<nat>, clients: map<nat, Client>, file: string)
    ensures Reports(handled + [pid], accepted, clients, file) == Reports(handled, accepted, clients, file)
      + if pid in accepted && pid in clients && clients[pid].file == file then clients[pid].report else ""
  {
    assert (handled + [pid])[..|handled|] == handled;
  }

  lemma LogIs(s: System, files0: map<string, string>, file: string)
    requires TransferOk(s) && LogsOk(s, files0)
    ensures LogOk(s, files0, file)
  {
  }

  /** The log that is being written, while its bytes move from the report to the FIFO, to the
      buffer and to the file. */
  lemma CurrentLogKept(s: System, step: Step, files0: map<string, string>)
    requires Inv(s, files0) && Enabled(s, step) && s.daemon.Copying? && !step.EndOfFile?
    requires TransferOk(Next(s, step))
    ensures LogOk(Next(s, step), files0, s.daemon.m.file)
  {
    hide InOrder, QueuedOk, BookedOk, Reports, OldContent, OutcomeOk, ArrivedOk, LogsOk;
    var t, file := Next(s, step), s.daemon.m.file;
    var complete := OldContent(files0, file) + Reports(s.handled, s.accepted, s.clients, file);
    RunsKept(s, step, file);
    assert LogOk(s, files0, file) by { LogIs(s, files0, file); }
    match step {
      case Write(pid, n) =>
        var w, report := s.clients[pid].phase.written, s.clients[pid].report;
        assert pid == s.daemon.m.pid;
        Prefix(report, w, n);
        Reassociate(s.files[file] + s.daemon.buffer, s.fifo, report[w..w + n], complete, report[..w]);
      case CloseFifo(pid) =>
        WholeReport(s.clients[pid].report);
      case Read(n) =>
        ReassociateEmpty(s.files[file], s.fifo[..n], s.fifo[n..]);
        assert s.fifo == s.fifo[..n] + s.fifo[n..];
      case Append =>
      case _ =>
    }
  }

  lemma Prefix(report: string, w: nat, n: nat)
    requires w + n <= |report|
    ensures report[..w + n] == report[..w] + report[w..w + n]
  {
  }

  lemma WholeReport(report: string)
    ensures report[..|report|] == report
  {
  }

  lemma Reassociate(a: string, b: string, c: string, d: string, e: string)
    requires a + b == d + e
    ensures a + (b + c) == d + (e + c)
  {
    assert a + (b + c) == (a + b) + c;
    assert d + (e + c) == (d + e) + c;
  }

  lemma ReassociateEmpty(a: string, b: string, c: string)
    ensures a + "" + (b + c) == a + b + c
  {
  }

  /** Logs nobody is writing. */
  lemma OtherLogKept(s: System, step: Step, files0: map<string, string>, file: string)
    requires Inv(s, files0) && Enabled(s, step) && !step.EndOfFile?
    requires s.daemon.Copying? ==> s.daemon.m.file != file
    requires TransferOk(Next(s, step))
    ensures LogOk(Next(s, step), files0, file)
  {
    hide InOrder, QueuedOk, BookedOk, Reports, OutcomeOk;
    RunsKept(s, step, file);
    assert LogOk(s, files0, file);
    if step.CantOpenLog? {
      RefusedReports(s, file);
    }
  }

  /** A refused booking adds no report. */
  lemma RefusedReports(s: System, file: string)
    requires InOrder(s) && PhasesOk(s) && Enabled(s, CantOpenLog)
    ensures var t := Next(s, CantOpenLog);
            Reports(t.handled, t.accepted, t.clients, file) == Reports(s.handled, s.accepted, s.clients, file)
  {
    BookedApart(s);
    assert s.daemon.m.pid !in s.handled;
    RunsKept(s, CantOpenLog, file);
    ReportsSnoc(s.handled, s.daemon.m.pid, s.accepted, Next(s, CantOpenLog).clients, file);
  }

  /** The daemon has seen the end of the report. */
  lemma LogCompleted(s: System, files0: map<string, string>, file: string)
    requires Inv(s, files0) && Enabled(s, EndOfFile) && TransferOk(Next(s, EndOfFile))
    ensures LogOk(Next(s, EndOfFile), files0, file)
  {
    hide InOrder, QueuedOk, BookedOk, Reports;
    var pid := s.daemon.m.pid;
    assert !IsWriting(s, pid);
    assert LogOk(s, files0, file);
    RunsKept(s, EndOfFile, file);
    ReportsSnoc(s.handled, pid, s.accepted + {pid}, s.clients, file);
    var before, report := OldContent(files0, file), s.clients[pid].report;
    var reports := Reports(s.handled, s.accepted, s.clients, file);
    assert (before + reports) + report == before + (reports + report);
    assert before + (reports + "") == before + reports;
  }

  lemma LogsKept(s: System, step: Step, files0: map<string, string>)
    requires Inv(s, files0) && Enabled(s, step) && TransferOk(Next(s, step))
    ensures LogsOk(Next(s, step), files0)
  {
    hide Inv, LogOk, Enabled, Next, TransferOk;
    forall file ensures LogOk(Next(s, step), files0, file) {
      if step.EndOfFile? {
        LogCompleted(s, files0, file);
      } else if s.daemon.Copying? && s.daemon.m.file == file {
        CurrentLogKept(s, step, files0);
      } else {
        OtherLogKept(s, step, files0, file);
      }
    }
  }

  /** Every step of every run keeps the invariant. */
  lemma InvKept(s: System, step: Step, files0: map<string, string>)
    requires Inv(s, files0) && Enabled(s, step)
    ensures Inv(Next(s, step), files0)
  {
    ArrivedKept(s, step);
    OrderKept(s, step);
    QueuedKept(s, step);
    BookedKept(s, step);
    HandKept(s, step);
    HandledKept(s, step);
    ExclusiveKept(s, step, files0);
    TransferKept(s, step, files0);
    LogsKept(s, step, files0);
    var t := Next(s, step);
    hide Enabled, Next, ArrivedOk, InOrder, QueuedOk, BookedOk, MessageOk, OutcomeOk, Exclusive, TransferOk, LogsOk;
    assert InOrder(t);
    assert PhasesOk(t);
    assert Exclusive(t);
    assert TransferOk(t);
    assert LogsOk(t, files0);
  }

  // ---- runs

  ghost predicate Trace(states: seq<System>, steps: seq<Step>) {
    && |states| == |steps| + 1
    && forall i :: 0 <= i < |steps| ==> Enabled(states[i], steps[i]) && states[i + 1] == Next(states[i], steps[i])
  }

  lemma {:induction false} TraceKeeps(states: seq<System>, steps: seq<Step>, files0: map<string, string>, i: nat)
    requires Trace(states, steps) && Inv(states[0], files0) && i < |states|
    ensures Inv(states[i], files0)
  {
    hide Inv, Enabled, Next;
    if i > 0 {
      TraceKeeps(states, steps, files0, i - 1);
      InvKept(states[i - 1], steps[i - 1], files0);
    }
  }

  /** The runs are not served one after the other by necessity: for any runs with any logs and reports, all
      can have booked, in the given order, before the daemon looks at the first booking. */
  lemma {:induction false} Backlog(files0: map<string, string>, pids: seq<nat>, file: nat -> string,
      report: nat -> string) returns (states: seq<System>, steps: seq<Step>)
    requires Once(pids)
    ensures Trace(states, steps) && Init(states[0], files0)
    ensures var s := states[|steps|];
      && s.arrived == s.booked == pids && s.handled == [] && s.daemon.Receiving? && |s.queue| == |pids|
      && (forall i :: 0 <= i < |pids| ==> s.queue[i] == Message(pids[i], file(pids[i])))
      && (forall pid :: pid in s.clients <==> pid in pids)
      && forall pid :: pid in pids ==> s.clients[pid] == Client(file(pid), report(pid), Waiting)
  {
    if pids == [] {
      return [System(map[], [], Receiving, "", files0, [], [], [], {})], [];
    }
    var n := |pids| - 1;
    var pid := pids[n];
    states, steps := Backlog(files0, pids[..n], file, report);
    assert pid !in pids[..n];
    var s := states[|steps|];
    var t := Next(s, Arrive(pid, file(pid), report(pid)));
    var u := Next(t, SendBooking(pid));
    states, steps := states + [t, u], steps + [Arrive(pid, file(pid), report(pid)), SendBooking(pid)];
    assert pids == pids[..n] + [pid];
  }

  /** What the bytes of a log are: its old content, the complete reports of the runs served for it in
      the order in which they booked, and a prefix of the report that is being delivered to it. */
  ghost predicate LogIntegrity(s: System, files0: map<string, string>, file: string) {
    exists current: string, n: nat :: n <= |current|
      && Delivering(s, file, current)
      && OldContent(s.files, file) == OldContent(files0, file) + Reports(s.handled, s.accepted, s.clients, file)
           + current[..n]
  }

  /** `current` is the report on its way to this log, empty if there is none. */
  ghost predicate Delivering(s: System, file: string, current: string) {
    if s.daemon.Copying? && s.daemon.m.file == file && s.daemon.m.pid in s.clients
    then current == s.clients[s.daemon.m.pid].report else current == ""
  }

  lemma LogContents(s: System, files0: map<string, string>, file: string)
    requires Inv(s, files0)
    ensures LogIntegrity(s, files0, file)
  {
    hide InOrder, QueuedOk, BookedOk, Reports;
    assert LogOk(s, files0, file);
    var complete := OldContent(files0, file) + Reports(s.handled, s.accepted, s.clients, file);
    if s.daemon.Copying? && s.daemon.m.file == file && s.daemon.m.pid in s.clients {
      var c := s.clients[s.daemon.m.pid];
      var n := |Written(c)| - |s.daemon.buffer| - |s.fifo|;
      CutBack(s.files[file], s.daemon.buffer, s.fifo, complete, Written(c), n);
      assert Written(c)[..n] == c.report[..n];
      assert Delivering(s, file, c.report);
    } else {
      assert complete + ""[..0] == complete;
      assert Delivering(s, file, "");
    }
  }

  lemma CutBack(a: string, b: string, c: string, complete: string, sent: string, n: nat)
    requires a + b + c == complete + sent && n == |sent| - |b| - |c|
    ensures a == complete + sent[..n]
  {
    assert a == (a + b + c)[..|complete| + n];
  }

  // ---- the answers

  /** The log was there before the first run, or has been written for a run that was accepted. */
  ghost predicate Known(s: System, files0: map<string, string>, file: string) {
    file in files0 || exists pid :: pid in s.accepted && pid in s.clients && s.clients[pid].file == file
  }

  /** The log the daemon has open. */
  ghost predicate InHand(d: Daemon, file: string) {
    (d.LogOpen? || d.OpeningFifo? || d.Copying?) && d.m.file == file
  }

  /** The logs are the known ones and the one in the daemon's hands, and a run is told of a new file
      exactly if its log was not known. */
  ghost predicate AnswersOk(s: System, files0: map<string, string>) {
    && (forall file :: file in s.files <==> Known(s, files0, file) || InHand(s.daemon, file))
    && (s.daemon.LogOpen? ==> (s.daemon.existed <==> Known(s, files0, s.daemon.m.file)))
    && (forall pid :: pid in s.clients && s.clients[pid].phase == Signalled(OkNewFile) ==>
          !Known(s, files0, s.clients[pid].file))
    && (forall pid :: pid in s.clients && s.clients[pid].phase == Signalled(OkFileExists) ==>
          Known(s, files0, s.clients[pid].file))
  }

  lemma AcceptedAreRuns(s: System)
    requires InOrder(s) && PhasesOk(s)
    ensures forall pid :: pid in s.accepted ==> pid in s.clients
    ensures !s.daemon.Receiving? ==> s.daemon.m.pid in s.clients && s.clients[s.daemon.m.pid].file == s.daemon.m.file
  {
    hide QueuedOk, BookedOk, Busy, Pids;
    forall pid | pid in s.accepted ensures pid in s.clients {
      assert OutcomeOk(s, pid);
    }
  }

  lemma AcceptedNext(s: System, step: Step)
    requires Enabled(s, step)
    ensures SameRuns(s.clients, Next(s, step).clients)
    ensures Next(s, step).accepted == s.accepted + if step.EndOfFile? then {s.daemon.m.pid} else {}
    ensures step.EndOfFile? ==> !s.daemon.Receiving?
  {
  }

  lemma KnownFrom(s: System, t: System, files0: map<string, string>, file: string, more: set<nat>)
    requires SameRuns(s.clients, t.clients) && t.accepted == s.accepted + more
    requires forall pid :: pid in t.accepted ==> pid in s.clients
    ensures Known(t, files0, file) <==>
              Known(s, files0, file) || exists pid :: pid in more && pid in s.clients && s.clients[pid].file == file
  {
    if pid :| pid in s.accepted && pid in s.clients && s.clients[pid].file == file {
      assert pid in t.accepted && t.clients[pid].file == file;
    }
    if pid :| pid in more && pid in s.clients && s.clients[pid].file == file {
      assert pid in t.accepted && t.clients[pid].file == file;
    }
  }

  /** Only the end of a report makes a log known. */
  lemma KnownKept(s: System, step: Step, files0: map<string, string>, file: string)
    requires InOrder(s) && PhasesOk(s) && Enabled(s, step)
    ensures Known(Next(s, step), files0, file) <==>
              Known(s, files0, file) || (step.EndOfFile? && s.daemon.m.file == file)
  {
    hide InOrder, PhasesOk, Enabled, Next, SameRuns, Known;
    AcceptedAreRuns(s);
    AcceptedNext(s, step);
    KnownFrom(s, Next(s, step), files0, file, if step.EndOfFile? then {s.daemon.m.pid} else {});
  }

  /** The logs there are, after a step. */
  lemma FilesKept(s: System, step: Step, files0: map<string, string>)
    requires Inv(s, files0) && AnswersOk(s, files0) && Enabled(s, step)
    requires forall file :: Known(Next(s, step), files0, file) <==>
                              Known(s, files0, file) || (step.EndOfFile? && s.daemon.m.file == file)
    ensures var t := Next(s, step);
            && (forall file :: file in t.files <==> Known(t, files0, file) || InHand(t.daemon, file))
            && (t.daemon.LogOpen? ==> (t.daemon.existed <==> Known(t, files0, t.daemon.m.file)))
  {
    hide LogsOk, InOrder, PhasesOk, Exclusive, ArrivedOk, Known;
  }

  lemma AnswersKept(s: System, step: Step, files0: map<string, string>)
    requires Inv(s, files0) && AnswersOk(s, files0) && Enabled(s, step)
    ensures AnswersOk(Next(s, step), files0)
  {
    hide LogsOk, InOrder, QueuedOk, BookedOk, OutcomeOk, ArrivedOk, Known, InHand;
    var t := Next(s, step);
    forall file ensures Known(t, files0, file) <==>
                          Known(s, files0, file) || (step.EndOfFile? && s.daemon.m.file == file)
    {
      KnownKept(s, step, files0, file);
    }
    FilesKept(s, step, files0);
  }

  lemma {:induction false} AnswersInTraces(states: seq<System>, steps: seq<Step>, files0: map<string, string>, i: nat)
    requires Trace(states, steps) && Init(states[0], files0) && i < |states|
    ensures AnswersOk(states[i], files0)
  {
    hide Inv, Enabled, Next, AnswersOk;
    StartsInv(states[0], files0);
    if i == 0 {
      assert AnswersOk(states[0], files0) by { NothingKnown(states[0], files0); }
    } else {
      AnswersInTraces(states, steps, files0, i - 1);
      TraceKeeps(states, steps, files0, i - 1);
      AnswersKept(states[i - 1], steps[i - 1], files0);
    }
  }

  lemma NothingKnown(s: System, files0: map<string, string>)
    requires Init(s, files0)
    ensures AnswersOk(s, files0)
  {
  }

  /** A run that has been told of a new file has a log that was not there before the first run and
      that no accepted run has written; one that has been told that the file exists has a log that was
      there or that an accepted run has written. */
  ghost predicate AnsweredRightly(s: System, files0: map<string, string>, pid: nat)
    requires pid in s.clients
  {
    && (s.clients[pid].phase == Signalled(OkNewFile) ==>
          && s.clients[pid].file !in files0
          && forall other :: other in s.accepted && other in s.clients ==> s.clients[other].file != s.clients[pid].file)
    && (s.clients[pid].phase == Signalled(OkFileExists) ==>
          || s.clients[pid].file in files0
          || exists other :: other in s.accepted && other in s.clients && s.clients[other].file == s.clients[pid].file)
  }

  /** The daemon refuses the booking of `pid` in this step. */
  ghost predicate Refuses(s: System, step: Step, pid: nat) {
    step.CantOpenLog? && s.daemon.Handling? && s.daemon.m.pid == pid
  }

  /** The run has failed, or is going to. */
  ghost predicate Failing(s: System, pid: nat) {
    pid in s.clients && (s.clients[pid].phase.Failed? || s.clients[pid].phase == Signalled(CantWrite))
  }

  lemma FailingNext(s: System, step: Step, files0: map<string, string>, pid: nat)
    requires Exclusive(s) && PhasesOk(s) && Enabled(s, step) && Failing(Next(s, step), pid)
    ensures Failing(s, pid) || Refuses(s, step, pid)
  {
    hide QueuedOk, BookedOk, OutcomeOk;
  }

  /** A run fails only if the daemon could not open its log: no report is lost on the way. */
  lemma {:induction false} OnlyRefusedFail(states: seq<System>, steps: seq<Step>, files0: map<string, string>, i: nat,
      pid: nat)
    requires Trace(states, steps) && Init(states[0], files0) && i < |states| && Failing(states[i], pid)
    ensures exists j :: 0 <= j < i && Refuses(states[j], steps[j], pid)
  {
    hide Enabled, Next, Exclusive, PhasesOk, InOrder, LogsOk, ArrivedOk, TransferOk, Refuses;
    StartsInv(states[0], files0);
    if i > 0 {
      TraceKeeps(states, steps, files0, i - 1);
      FailingNext(states[i - 1], steps[i - 1], files0, pid);
      if Failing(states[i - 1], pid) {
        OnlyRefusedFail(states, steps, files0, i - 1, pid);
      }
    }
  }

  ghost predicate AtMostOneServed(s: System) {
    forall p, q :: p in s.clients && q in s.clients && InService(s.clients[p]) && InService(s.clients[q]) ==> p == q
  }

  /** At most one run is ever between its OK signal and closing the FIFO, and it has a reader. */
  lemma OneInService(s: System, files0: map<string, string>, p: nat, q: nat)
    requires Inv(s, files0) && p in s.clients && InService(s.clients[p])
    ensures q in s.clients && InService(s.clients[q]) ==> p == q
    ensures !Enabled(s, BrokenPipe(p))
  {
    hide LogsOk;
  }

  /** Safety over all runs: in every state that any interleaving of any number of clients reaches,
      at most one is being served, no log loses, mixes or repeats bytes, bookings are answered in
      order, and the answers say the truth about the log. */
  lemma SafeTraces(states: seq<System>, steps: seq<Step>, files0: map<string, string>, i: nat)
    requires Trace(states, steps) && Init(states[0], files0) && i < |states|
    ensures InOrder(states[i])
    ensures forall file :: LogIntegrity(states[i], files0, file)
    ensures AtMostOneServed(states[i])
    ensures forall pid :: pid in states[i].clients ==> AnsweredRightly(states[i], files0, pid)
  {
    hide Inv, LogIntegrity, InOrder, Enabled, Next;
    StartsInv(states[0], files0);
    TraceKeeps(states, steps, files0, i);
    AnswersInTraces(states, steps, files0, i);
    var s := states[i];
    forall file ensures LogIntegrity(s, files0, file) {
      LogContents(s, files0, file);
    }
    forall p, q | p in s.clients && q in s.clients && InService(s.clients[p]) && InService(s.clients[q])
      ensures p == q
    {
      OneInService(s, files0, p, q);
    }
    assert InOrder(s) by {
      InvParts(s, files0);
    }
  }

  lemma InvParts(s: System, files0: map<string, string>)
    requires Inv(s, files0)
    ensures InOrder(s)
  {
  }

  // ---- progress

  ghost predicate Over(c: Client) {
    c.phase.Closed? || c.phase.Failed?
  }

  /** As long as the daemon has something to do, it or the run it serves can do the next step. */
  lemma DaemonStep(s: System, files0: map<string, string>) returns (step: Step)
    requires Inv(s, files0) && !(s.daemon.Receiving? && s.queue == [])
    ensures Enabled(s, step) && !step.Arrive?
  {
    hide LogsOk, InOrder, QueuedOk, BookedOk;
    match s.daemon {
      case Receiving => step := Receive;
      case Handling(m) => step := OpenLog;
      case LogOpen(m, _) => step := Notify;
      case OpeningFifo(m) =>
        step := if s.clients[m.pid].phase.Signalled? then NoticeSignal(m.pid) else Rendezvous(m.pid);
      case Copying(m, buffer) =>
        var c := s.clients[m.pid];
        step := if buffer != "" then Append
                else if s.fifo != "" then Read(1)
                else if c.phase.Closed? then EndOfFile
                else if c.phase.written == |c.report| then CloseFifo(m.pid)
                else Write(m.pid, 1);
    }
  }

  /** The protocol never gets stuck: as long as a run is not over, a step other than the arrival of
      a new run is possible. */
  lemma NoDeadlock(s: System, files0: map<string, string>, pid: nat) returns (step: Step)
    requires Inv(s, files0) && pid in s.clients && !Over(s.clients[pid])
    ensures Enabled(s, step) && !step.Arrive?
  {
    hide LogsOk;
    if s.daemon.Receiving? && s.queue == [] {
      step := if s.clients[pid].phase.Starting? then SendBooking(pid) else NoticeSignal(pid);
      if !s.clients[pid].phase.Starting? {
        NobodyWaits(s, pid);
      }
    } else {
      step := DaemonStep(s, files0);
    }
  }

  /** If the daemon is idle and the queue empty, every booking has been answered. */
  lemma NobodyWaits(s: System, pid: nat)
    requires InOrder(s) && PhasesOk(s) && s.daemon.Receiving? && s.queue == [] && pid in s.booked
    ensures exists i :: 0 <= i < |s.handled| && s.handled[i] == pid && OutcomeOk(s, s.handled[i])
  {
    var i :| 0 <= i < |s.booked| && s.booked[i] == pid;
    assert s.handled[i] == pid;
  }

  /** What is left to do for one run. */
  function Weight(c: Client): nat {
    match c.phase
    case Starting => 3 * |c.report| + 13
    case Waiting => 3 * |c.report| + 7
    case Signalled(_) => 3 * |c.report| + 3
    case Opening => 3 * |c.report| + 2
    case Writing(w) => if w <= |c.report| then 3 * (|c.report| - w) + 1 else 0
    case _ => 0
  }

  function Weights(pids: seq<nat>, clients: map<nat, Client>): nat {
    if pids == [] then 0
    else
      var pid := pids[|pids| - 1];
      Weights(pids[..|pids| - 1], clients) + if pid in clients then Weight(clients[pid]) else 0
  }

  function DaemonWeight(d: Daemon): nat {
    match d
    case Receiving => 0
    case Handling(_) => 4
    case LogOpen(_, _) => 3
    case OpeningFifo(_) => 2
    case Copying(_, buffer) => 1 + |buffer|
  }

  function Remaining(s: System): nat {
    Weights(s.arrived, s.clients) + 5 * |s.queue| + DaemonWeight(s.daemon) + 2 * |s.fifo|
  }

  lemma {:induction false} WeightsElsewhere(pids: seq<nat>, c1: map<nat, Client>, pid: nat, c: Client)
    requires pid !in pids
    ensures Weights(pids, c1[pid := c]) == Weights(pids, c1)
  {
    if pids != [] {
      WeightsElsewhere(pids[..|pids| - 1], c1, pid, c);
    }
  }

  /** Changing one run changes the sum by the change of its weight. */
  lemma {:induction false} WeightsChange(pids: seq<nat>, c1: map<nat, Client>, pid: nat, c: Client)
    requires Once(pids) && pid in pids && pid in c1
    ensures Weights(pids, c1[pid := c]) - Weight(c) == Weights(pids, c1) - Weight(c1[pid])
  {
    var n := |pids| - 1;
    var init := pids[..n];
    if pids[n] == pid {
      assert pid !in init;
      WeightsElsewhere(init, c1, pid, c);
    } else {
      assert pid in init;
      WeightsChange(init, c1, pid, c);
    }
  }

  /** Every step but an arrival brings the runs nearer to their end. */
  lemma StepsDecrease(s: System, step: Step, files0: map<string, string>)
    requires Inv(s, files0) && Enabled(s, step) && !step.Arrive?
    ensures Remaining(Next(s, step)) < Remaining(s)
  {
    hide LogsOk, InOrder, QueuedOk, BookedOk, Weights, Exclusive, OutcomeOk, Once;
    match step {
      case SendBooking(pid) => ClientChanged(s, step, pid);
      case NoticeSignal(pid) => ClientChanged(s, step, pid);
      case CantOpenLog => ClientChanged(s, step, s.daemon.m.pid);
      case Notify => ClientChanged(s, step, s.daemon.m.pid);
      case Rendezvous(pid) => TransferDecreases(s, step, pid);
      case Write(pid, _) => TransferDecreases(s, step, pid);
      case CloseFifo(pid) => TransferDecreases(s, step, pid);
      case BrokenPipe(pid) => TransferDecreases(s, step, pid);
      case _ =>
    }
  }

  lemma TransferDecreases(s: System, step: Step, pid: nat)
    requires ArrivedOk(s) && TransferOk(s) && Enabled(s, step)
    requires step == Rendezvous(pid) || step == CloseFifo(pid) || step == BrokenPipe(pid)
               || (step.Write? && step.pid == pid)
    ensures Remaining(Next(s, step)) < Remaining(s)
  {
    hide Weights, Once;
    ClientChanged(s, step, pid);
  }

  lemma ClientChanged(s: System, step: Step, pid: nat)
    requires ArrivedOk(s) && Enabled(s, step) && pid in s.clients && pid in Next(s, step).clients
    requires Next(s, step).clients == s.clients[pid := Next(s, step).clients[pid]] && !step.Arrive?
    ensures Next(s, step).arrived == s.arrived
    ensures Weights(s.arrived, Next(s, step).clients) - Weight(Next(s, step).clients[pid])
         == Weights(s.arrived, s.clients) - Weight(s.clients[pid])
  {
    WeightsChange(s.arrived, s.clients, pid, Next(s, step).clients[pid]);
  }

  /** A run of the protocol without further arrivals ends after at most Remaining(s) steps. */
  lemma {:induction false} TracesEnd(states: seq<System>, steps: seq<Step>, files0: map<string, string>)
    requires Trace(states, steps) && Inv(states[0], files0) && forall i :: 0 <= i < |steps| ==> !steps[i].Arrive?
    ensures |steps| + Remaining(states[|steps|]) <= Remaining(states[0])
    decreases |steps|
  {
    hide Inv, Enabled, Next, Remaining;
    var n := |steps|;
    if n > 0 {
      TracesEnd(states[..n], steps[..n - 1], files0);
      TraceKeeps(states, steps, files0, n - 1);
      StepsDecrease(states[n - 1], steps[n - 1], files0);
    }
  }

  /** When nothing but an arrival can happen, every run is over, every booking answered, and each log
      is its old content and the complete reports of the runs accepted for it. Exactly the runs that have
      got rid of their whole report have been accepted. */
  lemma AllDelivered(s: System, files0: map<string, string>, file: string)
    requires Inv(s, files0) && forall step :: Enabled(s, step) ==> step.Arrive?
    ensures forall pid :: pid in s.clients ==> Over(s.clients[pid])
    ensures s.booked == s.handled
    ensures forall pid :: pid in s.clients ==> (pid in s.accepted <==> s.clients[pid].phase.Closed?)
    ensures OldContent(s.files, file) == OldContent(files0, file) + Reports(s.handled, s.accepted, s.clients, file)
  {
    forall pid | pid in s.clients ensures Over(s.clients[pid]) {
      if !Over(s.clients[pid]) {
        var step := NoDeadlock(s, files0, pid);
        assert false;
      }
    }
    assert LogOk(s, files0, file);
    DaemonIdle(s, files0);
    AllHandled(s);
  }

  lemma AllHandled(s: System)
    requires InOrder(s) && PhasesOk(s) && s.daemon.Receiving? && s.queue == []
    requires forall pid :: pid in s.clients ==> Over(s.clients[pid])
    ensures s.booked == s.handled
    ensures forall pid :: pid in s.clients ==> (pid in s.accepted <==> s.clients[pid].phase.Closed?)
  {
    forall pid | pid in s.clients ensures pid in s.accepted <==> s.clients[pid].phase.Closed? {
      assert pid in s.booked;
      NobodyWaits(s, pid);
    }
  }

  lemma DaemonIdle(s: System, files0: map<string, string>)
    requires Inv(s, files0) && forall step :: Enabled(s, step) ==> step.Arrive?
    ensures s.daemon.Receiving? && s.queue == []
  {
    if !(s.daemon.Receiving? && s.queue == []) {
      var step := DaemonStep(s, files0);
      assert false;
    }
  }
}
