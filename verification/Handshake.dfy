/** The call handshake between the binder thread, which serves the client, and the native thread:
    two semaphores, a status word, one record for the pending JNI request and the variable for the result.

    Every access to a semaphore, to the status word, to a field of the record, to the memory its pointer leads
    to or to the result is a step of its own, and any thread that is not blocked on a semaphore may take the
    next step.

    The result variable lives in the frame of the handler of the first transaction, which returns with the
    first reply. */
module Handshake {
  import opened Arith

  /** A string of bytes. */
  type Data = seq<int>

  /** What a request does with the pointer of the record: let it point to data, clear it, or leave it. */
  datatype Param = Points(data: Data) | Cleared | Kept

  datatype Request = Request(func: int, param: Param)
  {
    /** The bytes that go to the client. */
    function Sent(): Data {
      if param.Points? then param.data else []
    }
  }

  /** What native code does once it knows the answers to its requests so far; a result may be void. */
  datatype Action = Ask(request: Request) | Return(value: Option<int>)

  /** What an access to the result variable does once its frame is gone: it is an error, or the variable can
      still be stored into and reading it gives some number that depends on what was stored last. */
  datatype Gone = Fails | Yields(number: int -> int)

  /** A native body and the client that answers it; after n answers the body returns. The client's answer depends
      on how many requests there have been, this one included, and on the request. With `log`, the first reply
      also prints the four bytes the pointer of the record leads to. */
  datatype Program = Program(body: seq<Data> -> Action, answer: (nat, int, Data) -> Data, n: nat, gone: Gone, log: bool)

  datatype Status = INIT | WAIT4EXEC | WAIT4JNI | FINISHED | ERROR

  /** param_data points to memory of the native side or to a buffer the binder side allocated. */
  datatype Pointer = Null | Native(data: Data) | Raw(id: nat)

  datatype JniCall = JniCall(func: int, length: nat, param: Pointer)

  /** What a transaction returns to the client. */
  datatype Reply = NeedJni(func: int, data: Data) | Done(value: int) | Unexpected(status: Status)

  /** Next step of the binder thread; `raw` is the answer buffer it has to free before it replies, and None in
      the first transaction. */
  datatype BinderPc =
    | BSetExec                                   // startExec: set the status
    | BCreate                                    // startExec: create the native thread
    | BWait(raw: Option<nat>)                    // sem_wait(mReplyReady)
    | BReply(raw: Option<nat>)                   // read the status the reply begins with
    | BLogParam | BLogData(param: Pointer)       // TAINT_CALL: print the start of the parameters
    | BFunc(raw: Option<nat>) | BLength(raw: Option<nat>, func: int)
    | BParam(raw: Option<nat>, func: int, length: nat)
    | BData(raw: Option<nat>, func: int, length: nat, param: Pointer)
    | BResult(raw: Option<nat>)                  // read the result
    | BLeave(raw: Option<nat>, reply: Reply)     // free the answer buffer, return to the client
    | BHandle(func: int, data: Data)             // the client runs the request
    | BMatch(func: int, data: Data)              // CALLBACK: allocate the buffer, compare functions
    | BFillLength(id: nat) | BFillParam(id: nat) // CALLBACK: store length and pointer
    | BCheck(id: nat)                            // setJniResult: read the status
    | BPost(id: nat)                             // setJniResult: sem_post(mJniReady)
    | BDone(value: int)                          // the client has the result
    | BFailed                                    // the client gave up, or memory that is gone was accessed

  datatype NativePc =
    | NNone
    | NRun                                       // native code up to its next request or its end
    | NFunction(request: Request) | NLength(request: Request) | NParam(request: Request)
    | NSetWait                                   // reqJniCall: status := WAIT4JNI
    | NPost                                      // reqJniCall: sem_post(mReplyReady)
    | NWait                                      // reqJniCall: sem_wait(mJniReady)
    | NSetExec                                   // reqJniCall: status := WAIT4EXEC
    | NReadParam | NReadData(param: Pointer)     // read the answer through param_data
    | NStore(value: int)                         // dvmPlatformInvoke: store the result
    | NSetFinished | NPostFinished               // signalResult
    | NExit
    | NCrashed                                   // memory that is gone was accessed

  /** `live` says that the frame of the first handler, with the result variable, is there. */
  datatype World = World(
    status: Status, replyReady: nat, jniReady: nat, call: JniCall, live: bool, result: int,
    heap: map<nat, Data>, nextId: nat,
    binder: BinderPc, native: NativePc,
    got: seq<Data>, replies: seq<Reply>)

  predicate Readable(w: World, p: Pointer) {
    p.Native? || (p.Raw? && p.id in w.heap)
  }

  function Content(w: World, p: Pointer): Data
    requires Readable(w, p)
  {
    if p.Native? then p.data else w.heap[p.id]
  }

  /** The pointer leads to at least four bytes. */
  predicate LeadsToInt(w: World, p: Pointer) {
    Readable(w, p) && |Content(w, p)| >= 4
  }

  function Take(d: Data, n: nat): Data {
    if n <= |d| then d[..n] else d
  }

  /** The reply is complete; what is left to do is freeing the answer buffer. */
  function Replied(w: World, raw: Option<nat>, reply: Reply): World {
    w.(binder := BLeave(raw, reply), replies := w.replies + [reply])
  }

  /** One step of the binder thread or of the client it serves; None when it is blocked or done. */
  function BinderStep(p: Program, w: World): Option<World> {
    match w.binder
    case BSetExec => Some(w.(status := WAIT4EXEC, binder := BCreate))
    case BCreate => Some(w.(native := NRun, binder := BWait(None)))
    case BWait(raw) =>
      if w.replyReady == 0 then None else Some(w.(replyReady := w.replyReady - 1, binder := BReply(raw)))
    case BReply(raw) =>
      Some(if w.status == WAIT4JNI then w.(binder := if p.log && raw.None? then BLogParam else BFunc(raw))
           else if w.status == FINISHED then w.(binder := BResult(raw))
           else Replied(w, raw, Unexpected(w.status)))
    case BLogParam => Some(w.(binder := BLogData(w.call.param)))
    case BLogData(param) => Some(w.(binder := if LeadsToInt(w, param) then BFunc(None) else BFailed))
    case BFunc(raw) => Some(w.(binder := BLength(raw, w.call.func)))
    case BLength(raw, func) => Some(w.(binder := BParam(raw, func, w.call.length)))
    case BParam(raw, func, length) => Some(w.(binder := BData(raw, func, length, w.call.param)))
    case BData(raw, func, length, param) =>
      if length == 0 then Some(Replied(w, raw, NeedJni(func, [])))
      else if Readable(w, param) then Some(Replied(w, raw, NeedJni(func, Take(Content(w, param), length))))
      else Some(w.(binder := BFailed))
    case BResult(raw) =>
      Some(if w.live then Replied(w, raw, Done(w.result))
           else if p.gone.Yields? then Replied(w, raw, Done(p.gone.number(w.result)))
           else w.(binder := BFailed))
    case BLeave(raw, reply) =>
      var next := match reply
        case NeedJni(func, data) => BHandle(func, data)
        case Done(value) => BDone(value)
        case Unexpected(_) => BFailed;
      Some(if raw.Some? then w.(heap := w.heap - {raw.value}, binder := next) else w.(live := false, binder := next))
    case BHandle(func, data) => Some(w.(binder := BMatch(func, p.answer(|w.replies|, func, data))))
    case BMatch(func, data) =>
      if func == w.call.func then
        Some(w.(heap := w.heap[w.nextId := data], nextId := w.nextId + 1, binder := BFillLength(w.nextId)))
      else Some(w.(binder := BFailed))
    case BFillLength(id) =>
      var length := if id in w.heap then |w.heap[id]| else 0;
      Some(w.(call := w.call.(length := length), binder := BFillParam(id)))
    case BFillParam(id) => Some(w.(call := w.call.(param := Raw(id)), binder := BCheck(id)))
    case BCheck(id) =>
      if w.status == WAIT4JNI then Some(w.(binder := BPost(id)))
      else Some(Replied(w, Some(id), Unexpected(ERROR)))
    case BPost(id) => Some(w.(jniReady := w.jniReady + 1, binder := BWait(Some(id))))
    case BDone(_) => None
    case BFailed => None
  }

  /** One step of the native thread; None when it is blocked or gone. */
  function NativeStep(p: Program, w: World): Option<World> {
    match w.native
    case NNone => None
    case NRun =>
      (match p.body(w.got)
       case Ask(request) => Some(w.(native := NFunction(request)))
       case Return(value) => Some(w.(native := if value.Some? then NStore(value.value) else NSetFinished)))
    case NFunction(r) => Some(w.(call := w.call.(func := r.func), native := NLength(r)))
    case NLength(r) =>
      Some(w.(call := w.call.(length := |r.Sent()|), native := if r.param.Kept? then NSetWait else NParam(r)))
    case NParam(r) =>
      Some(w.(call := w.call.(param := if r.param.Points? then Native(r.param.data) else Null), native := NSetWait))
    case NSetWait => Some(w.(status := WAIT4JNI, native := NPost))
    case NPost => Some(w.(replyReady := w.replyReady + 1, native := NWait))
    case NWait => if w.jniReady == 0 then None else Some(w.(jniReady := w.jniReady - 1, native := NSetExec))
    case NSetExec => Some(w.(status := WAIT4EXEC, native := NReadParam))
    case NReadParam => Some(w.(native := NReadData(w.call.param)))
    case NReadData(param) =>
      if Readable(w, param) then Some(w.(got := w.got + [Content(w, param)], native := NRun))
      else Some(w.(native := NCrashed))
    case NStore(value) =>
      Some(if w.live || p.gone.Yields? then w.(result := value, native := NSetFinished) else w.(native := NCrashed))
    case NSetFinished => Some(w.(status := FINISHED, native := NPostFinished))
    case NPostFinished => Some(w.(replyReady := w.replyReady + 1, native := NExit))
    case NExit => None
    case NCrashed => None
  }

  predicate Next(p: Program, w: World, w': World) {
    BinderStep(p, w) == Some(w') || NativeStep(p, w) == Some(w')
  }

  /** A thread is about to access memory that is gone or was never there. */
  predicate BadAccess(w: World) {
    || (w.native.NStore? && !w.live)
    || (w.binder.BResult? && !w.live)
    || (w.binder.BLogData? && !LeadsToInt(w, w.binder.param))
    || (w.binder.BData? && w.binder.length > 0 && !Readable(w, w.binder.param))
    || (w.native.NReadData? && !Readable(w, w.native.param))
  }

  /** A manager on which a call starts: whatever an earlier call left in status, record and result. The pointer of
      the record does not lead anywhere: it was never set, or an earlier call freed the buffer. */
  predicate Start(w: World) {
    && w.replyReady == 0 && w.jniReady == 0 && w.heap == map[] && w.live && !w.call.param.Native?
    && w.binder == BSetExec && w.native == NNone && w.got == [] && w.replies == []
  }

  // ----- the call as if native code and client were one thread

  /** The answers native code knows after k requests. */
  ghost function History(p: Program, k: nat): (h: seq<Data>)
  {
    if k == 0 then []
    else
      var h := History(p, k - 1);
      match p.body(h)
      case Ask(request) => h + [p.answer(k, request.func, request.Sent())]
      case Return(_) => h
  }

  ghost predicate ValidProgram(p: Program) {
    && (forall k: nat | k < p.n :: p.body(History(p, k)).Ask?)
    && p.body(History(p, p.n)).Return?
  }

  ghost function RequestAt(p: Program, k: nat): Request
    requires ValidProgram(p) && k < p.n
  {
    p.body(History(p, k)).request
  }

  ghost function AnswerAt(p: Program, k: nat): Data
    requires ValidProgram(p) && k < p.n
  {
    p.answer(k + 1, RequestAt(p, k).func, RequestAt(p, k).Sent())
  }

  ghost function ReplyAt(p: Program, k: nat): Reply
    requires ValidProgram(p) && k < p.n
  {
    NeedJni(RequestAt(p, k).func, RequestAt(p, k).Sent())
  }

  /** The replies of the first k rounds. */
  ghost function Rounds(p: Program, k: nat): (r: seq<Reply>)
    requires ValidProgram(p) && k <= p.n
    ensures |r| == k
  {
    seq(k, i requires 0 <= i < k => ReplyAt(p, i))
  }

  ghost function ResultOf(p: Program): Option<int>
    requires ValidProgram(p)
  {
    p.body(History(p, p.n)).value
  }

  // ----- how a call can end

  /** The log line of the first reply follows a pointer that does not lead to an int: the first request cleared or
      kept the pointer, or its parameters have less than four bytes. */
  ghost predicate LogFails(p: Program)
    requires ValidProgram(p)
  {
    p.log && p.n > 0 && |RequestAt(p, 0).Sent()| < 4
  }

  /** No access is an error: the log line is in order, and there is no request or the variable outlives its frame. */
  ghost predicate Finishes(p: Program)
    requires ValidProgram(p)
  {
    !LogFails(p) && (p.n == 0 || p.gone.Yields?)
  }

  /** The number sent as the result: that of native code as long as the variable is there. */
  ghost predicate IsResult(p: Program, v: int)
    requires ValidProgram(p) && Finishes(p)
  {
    ResultOf(p).Some? ==> v == if p.n == 0 then ResultOf(p).value else p.gone.number(ResultOf(p).value)
  }

  // ----- the invariant

  /** The buffers alive are the one the binder thread still has to free, if any. */
  ghost predicate Owns(w: World, raw: Option<nat>) {
    && w.heap.Keys == (if raw.Some? then {raw.value} else {})
    && forall id <- w.heap :: id < w.nextId
  }

  /** The buffer still to be freed holds the last answer native code has read, and there is none in the first
      transaction. */
  ghost predicate Stale(p: Program, w: World, raw: Option<nat>)
    requires ValidProgram(p)
  {
    && (raw.Some? <==> w.got != [])
    && (raw.Some? ==> raw.value in w.heap && w.heap[raw.value] == w.got[|w.got| - 1] && !LogFails(p))
  }

  /** The result variable has been stored into, which was no error. */
  ghost predicate Stored(p: Program, w: World)
    requires ValidProgram(p)
  {
    ResultOf(p).Some? ==> w.result == ResultOf(p).value && (p.n == 0 || p.gone.Yields?)
  }

  /** Native code is at work with k answers and its next post is still to come. */
  ghost predicate Working(p: Program, w: World, k: nat)
    requires ValidProgram(p) && k <= p.n
  {
    && w.replyReady == 0 && w.jniReady == 0
    && w.got == History(p, k) && w.replies == Rounds(p, k)
    && match w.native
       case NRun => !w.call.param.Native?
       case NFunction(r) => k < p.n && r == RequestAt(p, k) && !w.call.param.Native?
       case NLength(r) => k < p.n && r == RequestAt(p, k) && w.call.func == r.func && !w.call.param.Native?
       case NParam(r) => k < p.n && r == RequestAt(p, k) && w.call.func == r.func && w.call.length == |r.Sent()|
         && !r.param.Kept?
       case NSetWait => k < p.n && Holds(w, RequestAt(p, k))
       case NPost => k < p.n && Holds(w, RequestAt(p, k)) && w.status == WAIT4JNI
       case NStore(v) => k == p.n && ResultOf(p) == Some(v) && !w.call.param.Native?
       case NSetFinished => k == p.n && Stored(p, w) && !w.call.param.Native?
       case NPostFinished => k == p.n && Stored(p, w) && !w.call.param.Native? && w.status == FINISHED
       case NCrashed => k == p.n > 0 && p.gone.Fails? && ResultOf(p).Some?
       case _ => false
  }

  ghost predicate Holds(w: World, r: Request) {
    && w.call.func == r.func && w.call.length == |r.Sent()|
    && match r.param
       case Points(data) => w.call.param == Native(data)
       case Cleared => w.call.param == Null
       case Kept => !w.call.param.Native?
  }

  /** Native code waits for the answer to request k. */
  ghost predicate Waiting(p: Program, w: World, k: nat)
    requires ValidProgram(p) && k < p.n
  {
    && w.native == NWait && w.status == WAIT4JNI && w.got == History(p, k)
    && w.call.func == RequestAt(p, k).func
  }

  /** The answer to request k lies in buffer id. */
  ghost predicate Answered(p: Program, w: World, k: nat, id: nat)
    requires ValidProgram(p) && k < p.n
  {
    && Owns(w, Some(id)) && w.heap[id] == AnswerAt(p, k)
  }

  /** Native code has returned. */
  ghost predicate Over(p: Program, w: World)
    requires ValidProgram(p)
  {
    w.native == NExit && w.status == FINISHED && Stored(p, w) && w.got == History(p, p.n) && w.jniReady == 0
    && !w.call.param.Native?
  }

  /** Neither semaphore is posted. */
  predicate Quiet(w: World) {
    w.replyReady == 0 && w.jniReady == 0
  }

  /** Nothing has happened yet. */
  ghost predicate Fresh(w: World) {
    && w.native == NNone && Owns(w, None) && Quiet(w) && w.got == [] && w.replies == []
    && w.live && !w.call.param.Native?
  }

  /** Native code has asked request k, and the reply with it is still to be written. */
  ghost predicate Asked(p: Program, w: World, k: nat)
    requires ValidProgram(p)
  {
    k < p.n && Waiting(p, w, k) && Holds(w, RequestAt(p, k)) && w.replies == Rounds(p, k)
  }

  /** The binder thread waits for native code, which has not yet posted, has posted, or has an answer to read. */
  ghost predicate Waits(p: Program, w: World, k: nat, raw: Option<nat>)
    requires ValidProgram(p) && k <= p.n
  {
    || (Stale(p, w, raw) && Working(p, w, k))
    || (Stale(p, w, raw) && w.replyReady == 1 && w.jniReady == 0
        && (Asked(p, w, k) || (Over(p, w) && w.replies == Rounds(p, p.n))))
    || (raw.Some? && w.replyReady == 0 && Served(p, w, k) && Answer(p, w, k, raw.value)
        && ((Waiting(p, w, k) && w.jniReady == 1) || (w.native == NSetExec && w.jniReady == 0)
            || (w.native in {NReadParam, NReadData(Raw(raw.value))} && w.jniReady == 0)))
  }

  /** The client has request k. */
  ghost predicate Served(p: Program, w: World, k: nat)
    requires ValidProgram(p)
  {
    k < p.n && w.replies == Rounds(p, k + 1) && w.got == History(p, k) && !LogFails(p)
  }

  /** The record leads to the answer to request k. */
  ghost predicate Answer(p: Program, w: World, k: nat, id: nat)
    requires ValidProgram(p) && k < p.n
  {
    Answered(p, w, k, id) && w.call.param == Raw(id) && w.call.length == |w.heap[id]|
  }

  /** While native code waits, the binder thread still has to free `raw` and to write the reply with request k. */
  ghost predicate Replying(p: Program, w: World, k: nat, raw: Option<nat>)
    requires ValidProgram(p)
  {
    Owns(w, raw) && Stale(p, w, raw) && Quiet(w) && Asked(p, w, k) && w.live == raw.None?
  }

  ghost predicate Ending(p: Program, w: World, raw: Option<nat>)
    requires ValidProgram(p)
  {
    && Owns(w, raw) && Stale(p, w, raw) && Quiet(w) && Over(p, w) && w.replies == Rounds(p, p.n)
    && w.live == raw.None?
  }

  /** The client works on request k. */
  ghost predicate Serving(p: Program, w: World, k: nat)
    requires ValidProgram(p)
  {
    Quiet(w) && Served(p, w, k) && Waiting(p, w, k) && !w.live
  }

  /** The call ended with the reply Done(v). */
  ghost predicate Ended(p: Program, w: World, v: int)
    requires ValidProgram(p)
  {
    Quiet(w) && Over(p, w) && Finishes(p) && IsResult(p, v) && w.replies == Rounds(p, p.n) + [Done(v)]
  }

  /** The binder thread has made an access that is an error: in the log line, or reading the result. */
  ghost predicate Failed(p: Program, w: World)
    requires ValidProgram(p)
  {
    && Quiet(w)
    && (|| (LogFails(p) && w.native == NWait && w.got == [] && w.replies == [])
        || (!LogFails(p) && p.n > 0 && p.gone.Fails? && ResultOf(p).None? && w.native == NExit
            && w.got == History(p, p.n) && w.replies == Rounds(p, p.n)))
  }

  ghost predicate Inv(p: Program, w: World)
    requires ValidProgram(p)
  {
    var k := |w.got|;
    && k <= p.n && |History(p, k)| == k
    && match w.binder
       case BSetExec => Fresh(w)
       case BCreate => Fresh(w)
       case BWait(raw) => Owns(w, raw) && Waits(p, w, k, raw) && w.live == raw.None?
       case BReply(raw) => Replying(p, w, k, raw) || Ending(p, w, raw)
       case BLogParam => p.log && Replying(p, w, k, None)
       case BLogData(param) => p.log && Replying(p, w, k, None) && param == w.call.param
       case BFunc(raw) => Replying(p, w, k, raw) && !LogFails(p)
       case BLength(raw, func) => Replying(p, w, k, raw) && !LogFails(p) && func == RequestAt(p, k).func
       case BParam(raw, func, length) =>
         && Replying(p, w, k, raw) && !LogFails(p) && func == RequestAt(p, k).func
         && length == |RequestAt(p, k).Sent()|
       case BData(raw, func, length, param) =>
         && Replying(p, w, k, raw) && !LogFails(p) && func == RequestAt(p, k).func
         && length == |RequestAt(p, k).Sent()| && param == w.call.param
       case BResult(raw) => Ending(p, w, raw)
       case BLeave(raw, reply) =>
         && Owns(w, raw) && Stale(p, w, raw) && w.live == raw.None?
         && (|| (Serving(p, w.(live := false), k) && reply == ReplyAt(p, k))
             || (reply.Done? && Ended(p, w, reply.value)))
       case BHandle(func, data) => Owns(w, None) && Serving(p, w, k) && NeedJni(func, data) == ReplyAt(p, k)
       case BMatch(func, data) =>
         Owns(w, None) && Serving(p, w, k) && func == RequestAt(p, k).func && data == AnswerAt(p, k)
       case BFillLength(id) => Serving(p, w, k) && Answered(p, w, k, id)
       case BFillParam(id) => Serving(p, w, k) && Answered(p, w, k, id) && w.call.length == |w.heap[id]|
       case BCheck(id) => Serving(p, w, k) && Answer(p, w, k, id)
       case BPost(id) => Serving(p, w, k) && Answer(p, w, k, id)
       case BDone(value) => Owns(w, None) && !w.live && Ended(p, w, value)
       case BFailed => Failed(p, w)
  }

  lemma {:induction false} HistoryLength(p: Program, k: nat)
    requires ValidProgram(p) && k <= p.n
    ensures |History(p, k)| == k
  {
    if k > 0 { HistoryLength(p, k - 1); }
  }

  lemma RoundsGrow(p: Program, k: nat)
    requires ValidProgram(p) && k < p.n
    ensures Rounds(p, k + 1) == Rounds(p, k) + [ReplyAt(p, k)]
    ensures History(p, k + 1) == History(p, k) + [AnswerAt(p, k)]
  {
  }

  lemma NoRounds(p: Program)
    requires ValidProgram(p)
    ensures Rounds(p, 0) == [] && History(p, 0) == []
  {
  }

  lemma StartHasInv(p: Program, w: World)
    requires ValidProgram(p) && Start(w)
    ensures Inv(p, w)
  {
  }

  /** Before the reply is begun. */
  lemma BinderWaits(p: Program, w: World)
    requires ValidProgram(p) && Inv(p, w) && BinderStep(p, w).Some?
    requires w.binder.BSetExec? || w.binder.BCreate? || w.binder.BWait?
    ensures Inv(p, BinderStep(p, w).value)
  {
    hide History, Rounds, RequestAt, ResultOf, LogFails;
    NoRounds(p);
  }

  /** The log line of the first reply. */
  lemma BinderLogs(p: Program, w: World)
    requires ValidProgram(p) && Inv(p, w) && (w.binder.BReply? || w.binder.BLogParam? || w.binder.BLogData?)
    ensures Inv(p, BinderStep(p, w).value)
  {
    hide History, Rounds, ResultOf, Working, Waits;
    NoRounds(p);
  }

  /** The fields of the record are read. */
  lemma BinderReads(p: Program, w: World)
    requires ValidProgram(p) && Inv(p, w) && (w.binder.BFunc? || w.binder.BLength? || w.binder.BParam?)
    ensures Inv(p, BinderStep(p, w).value)
  {
    hide History, Rounds, RequestAt, ResultOf, Working, Waits, LogFails, Stored;
  }

  /** The reply with a request is written. */
  lemma BinderReplies(p: Program, w: World)
    requires ValidProgram(p) && Inv(p, w) && w.binder.BData?
    ensures Inv(p, BinderStep(p, w).value)
  {
    hide History, Rounds, RequestAt, ResultOf, Working, Waits, LogFails, Stored;
    var k := |w.got|;
    RoundsGrow(p, k);
    var d := RequestAt(p, k).Sent();
    assert d[..|d|] == d;
  }

  /** The reply with the result. */
  lemma BinderEnds(p: Program, w: World)
    requires ValidProgram(p) && Inv(p, w) && w.binder.BResult?
    ensures Inv(p, BinderStep(p, w).value)
  {
    hide History, Rounds, RequestAt, ResultOf, Working, Waits;
    HistoryLength(p, p.n);
  }

  /** The buffer of the answer before is freed, or the frame of the first handler goes. */
  lemma BinderLeaves(p: Program, w: World)
    requires ValidProgram(p) && Inv(p, w) && w.binder.BLeave?
    ensures Inv(p, BinderStep(p, w).value)
  {
    hide History, Rounds, RequestAt, ResultOf, Working, Waits, LogFails, Finishes, IsResult;
    assert BinderStep(p, w).value.heap.Keys == {};
  }

  /** The answer is put into the record and handed over. */
  lemma BinderServes(p: Program, w: World)
    requires ValidProgram(p) && Inv(p, w) && BinderStep(p, w).Some?
    requires w.binder.BHandle? || w.binder.BMatch? || w.binder.BFillLength? || w.binder.BFillParam?
      || w.binder.BCheck? || w.binder.BPost?
    ensures Inv(p, BinderStep(p, w).value)
  {
    hide History, Rounds, RequestAt, ResultOf, Working, Stale, LogFails, Stored;
    if w.binder.BMatch? { assert BinderStep(p, w).value.heap.Keys == {w.nextId}; }
  }

  /** One step of the binder thread keeps the invariant. */
  lemma BinderKeepsInv(p: Program, w: World)
    requires ValidProgram(p) && Inv(p, w) && BinderStep(p, w).Some?
    ensures Inv(p, BinderStep(p, w).value)
  {
    hide Inv, BinderStep;
    StepLeft(p, w);
    match w.binder
    case BSetExec => BinderWaits(p, w);
    case BCreate => BinderWaits(p, w);
    case BWait(_) => BinderWaits(p, w);
    case BReply(_) => BinderLogs(p, w);
    case BLogParam => BinderLogs(p, w);
    case BLogData(_) => BinderLogs(p, w);
    case BData(_, _, _, _) => BinderReplies(p, w);
    case BResult(_) => BinderEnds(p, w);
    case BLeave(_, _) => BinderLeaves(p, w);
    case BHandle(_, _) => BinderServes(p, w);
    case BMatch(_, _) => BinderServes(p, w);
    case BFillLength(_) => BinderServes(p, w);
    case BFillParam(_) => BinderServes(p, w);
    case BCheck(_) => BinderServes(p, w);
    case BPost(_) => BinderServes(p, w);
    case _ => BinderReads(p, w);
  }

  lemma StepLeft(p: Program, w: World)
    requires BinderStep(p, w).Some?
    ensures !w.binder.BFailed? && !w.binder.BDone?
  {
  }

  lemma NativeRunsAlone(p: Program, w: World)
    requires ValidProgram(p) && Inv(p, w) && NativeStep(p, w).Some?
    ensures w.binder.BWait?
  {
    hide History, Rounds, RequestAt, ResultOf, Owns, Stale, LogFails, Stored, Finishes, IsResult;
  }

  /** Native code at work, up to its next post. */
  lemma NativeWorks(p: Program, w: World, raw: Option<nat>)
    requires ValidProgram(p) && |w.got| <= p.n && |History(p, |w.got|)| == |w.got|
    requires Working(p, w, |w.got|) && Stale(p, w, raw) && w.live == raw.None? && NativeStep(p, w).Some?
    ensures var w' := NativeStep(p, w).value;
      && w'.got == w.got && w'.heap == w.heap && w'.nextId == w.nextId && w'.live == w.live
      && Waits(p, w', |w.got|, raw)
  {
    hide History, Rounds, Owns, LogFails;
    NoRounds(p);
  }

  /** Native code being woken up. */
  lemma NativeWakes(p: Program, w: World, raw: Option<nat>)
    requires ValidProgram(p) && |w.got| <= p.n && Waits(p, w, |w.got|, raw) && !w.native.NReadData?
    requires NativeStep(p, w).Some? && !Working(p, w, |w.got|)
    ensures var w' := NativeStep(p, w).value;
      && w'.got == w.got && w'.heap == w.heap && w'.nextId == w.nextId && w'.live == w.live
      && Waits(p, w', |w.got|, raw)
  {
    hide History, Rounds, RequestAt, ResultOf, LogFails, Stored, Holds, Stale;
  }

  /** Native code taking the answer. */
  lemma NativeTakes(p: Program, w: World, raw: Option<nat>)
    requires ValidProgram(p) && |w.got| <= p.n && |History(p, |w.got|)| == |w.got| && w.native.NReadData?
    requires Owns(w, raw) && Waits(p, w, |w.got|, raw)
    ensures var w' := NativeStep(p, w).value;
      var k := |w'.got|;
      && k <= p.n && |History(p, k)| == k && w'.heap == w.heap && w'.nextId == w.nextId && w'.live == w.live
      && Waits(p, w', k, raw)
  {
    hide History, Rounds, RequestAt, ResultOf, LogFails, Stored, Holds;
    var k := |w.got|;
    RoundsGrow(p, k);
    HistoryLength(p, k + 1);
  }

  /** One step of the native thread keeps the invariant. */
  lemma NativeKeepsInv(p: Program, w: World)
    requires ValidProgram(p) && Inv(p, w) && NativeStep(p, w).Some?
    ensures Inv(p, NativeStep(p, w).value)
  {
    NativeRunsAlone(p, w);
    hide History, Rounds, RequestAt, ResultOf, Working, Stale, Waits, NativeStep;
    NativeStepKeepsBinder(p, w);
    if Working(p, w, |w.got|) {
      WorkingIsStale(p, w);
      NativeWorks(p, w, w.binder.raw);
    } else if w.native.NReadData? {
      NativeTakes(p, w, w.binder.raw);
    } else {
      NativeWakes(p, w, w.binder.raw);
    }
  }

  lemma NativeStepKeepsBinder(p: Program, w: World)
    requires NativeStep(p, w).Some?
    ensures NativeStep(p, w).value.binder == w.binder && NativeStep(p, w).value.replies == w.replies
  {
  }

  lemma WorkingIsStale(p: Program, w: World)
    requires ValidProgram(p) && Inv(p, w) && w.binder.BWait? && Working(p, w, |w.got|)
    ensures Stale(p, w, w.binder.raw)
  {
    hide History, Rounds, RequestAt, ResultOf, LogFails, Stored;
  }

  // ----- whole runs

  /** How many steps are left at most. */
  ghost function Left(p: Program, w: World): int {
    NativeLeft(p, w) + BinderLeft(p, w)
  }

  ghost function NativeLeft(p: Program, w: World): int {
    12 * (p.n - |w.got|) + match w.native
      case NNone => 12
      case NRun => 11
      case NFunction(_) => 10
      case NLength(_) => 9
      case NParam(_) => 8
      case NSetWait => 7
      case NPost => 6
      case NWait => 5
      case NSetExec => 4
      case NReadParam => 3
      case NReadData(_) => 2
      case NStore(_) => 3
      case NSetFinished => 2
      case NPostFinished => 1
      case NExit => 0
      case NCrashed => 0
  }

  ghost function BinderLeft(p: Program, w: World): int {
    17 * (p.n + 1 - |w.replies|) + match w.binder
      case BSetExec => 12
      case BCreate => 11
      case BWait(_) => 10
      case BReply(_) => 9
      case BLogParam => 8
      case BLogData(_) => 7
      case BFunc(_) => 6
      case BLength(_, _) => 5
      case BParam(_, _, _) => 4
      case BData(_, _, _, _) => 3
      case BResult(_) => 3
      case BLeave(_, _) => 17
      case BHandle(_, _) => 16
      case BMatch(_, _) => 15
      case BFillLength(_) => 14
      case BFillParam(_) => 13
      case BCheck(_) => 12
      case BPost(_) => 11
      case BDone(_) => 0
      case BFailed => 0
  }

  predicate WritesReply(b: BinderPc) {
    b.BReply? || b.BData? || b.BResult? || b.BCheck?
  }

  lemma ReplyStepsRunOut(p: Program, w: World)
    requires BinderStep(p, w).Some? && WritesReply(w.binder)
    ensures BinderLeft(p, BinderStep(p, w).value) < BinderLeft(p, w)
  {
    hide Readable, Content, Take;
  }

  lemma BinderStepsRunOut(p: Program, w: World)
    requires BinderStep(p, w).Some?
    ensures BinderLeft(p, BinderStep(p, w).value) < BinderLeft(p, w)
  {
    if WritesReply(w.binder) {
      ReplyStepsRunOut(p, w);
    } else {
      hide Readable, Content, Take, LeadsToInt, Replied;
    }
  }

  lemma NativeStepsRunOut(p: Program, w: World)
    requires NativeStep(p, w).Some?
    ensures NativeLeft(p, NativeStep(p, w).value) < NativeLeft(p, w)
    ensures BinderLeft(p, NativeStep(p, w).value) == BinderLeft(p, w)
  {
    hide Readable, Content, BinderLeft;
    NativeStepKeepsBinder(p, w);
    SameBinderLeft(p, w, NativeStep(p, w).value);
  }

  lemma SameBinderLeft(p: Program, w: World, w': World)
    requires w.binder == w'.binder && w.replies == w'.replies
    ensures BinderLeft(p, w) == BinderLeft(p, w')
  {
  }

  /** At most one reply for each request and one more. */
  lemma FewReplies(p: Program, w: World)
    requires ValidProgram(p) && Inv(p, w)
    ensures |w.got| <= p.n && |w.replies| <= p.n + 1
  {
    hide History, RequestAt, ResultOf, LogFails, Stored, Finishes, IsResult, Owns, Stale, Holds, Answer, Answered;
  }

  lemma LeftIsNatural(p: Program, w: World)
    requires ValidProgram(p) && Inv(p, w)
    ensures 0 <= NativeLeft(p, w) && 0 <= BinderLeft(p, w)
  {
    hide Inv;
    FewReplies(p, w);
  }

  /** Every step uses up part of a bound that is never exceeded. */
  lemma StepsRunOut(p: Program, w: World, w': World)
    requires ValidProgram(p) && Inv(p, w) && Next(p, w, w')
    ensures Inv(p, w') && 0 <= Left(p, w') < Left(p, w)
  {
    hide Inv, NativeLeft, BinderLeft, BinderStep, NativeStep;
    if BinderStep(p, w) == Some(w') {
      BinderKeepsInv(p, w);
      BinderStepsRunOut(p, w);
      BinderLeavesNative(p, w);
    } else {
      NativeKeepsInv(p, w);
      NativeStepsRunOut(p, w);
    }
    LeftIsNatural(p, w');
  }

  lemma BinderLeavesNative(p: Program, w: World)
    requires ValidProgram(p) && Inv(p, w) && BinderStep(p, w).Some?
    ensures NativeLeft(p, BinderStep(p, w).value) <= NativeLeft(p, w)
  {
    if w.binder.BCreate? {
      hide History, Waits, Replying, Ending, Serving, Ended, Failed, Answer, Answered;
    } else {
      hide Inv, BinderStep, NativeLeft;
      BinderStepKeepsNative(p, w);
      SameNativeLeft(p, w, BinderStep(p, w).value);
    }
  }

  lemma BinderStepKeepsNative(p: Program, w: World)
    requires BinderStep(p, w).Some? && !w.binder.BCreate?
    ensures BinderStep(p, w).value.native == w.native && BinderStep(p, w).value.got == w.got
  {
    hide Readable, Content, Take, LeadsToInt;
  }

  lemma SameNativeLeft(p: Program, w: World, w': World)
    requires w.native == w'.native && w.got == w'.got
    ensures NativeLeft(p, w) == NativeLeft(p, w')
  {
  }

  /** Until the client has its result or a bad access was made, one of the two threads can take a step. */
  lemma NoDeadlock(p: Program, w: World)
    requires ValidProgram(p) && Inv(p, w) && !w.binder.BDone? && !w.binder.BFailed? && !w.native.NCrashed?
    ensures BinderStep(p, w).Some? || NativeStep(p, w).Some?
  {
    hide History, Rounds, RequestAt, ResultOf, LogFails, Stored, Stale, Owns, Holds;
  }

  lemma RoundsNeedJni(p: Program, k: nat)
    requires ValidProgram(p) && k <= p.n
    ensures forall r <- Rounds(p, k) :: r.NeedJni?
  {
  }

  lemma RepliesAre(p: Program, w: World)
    requires ValidProgram(p) && Inv(p, w)
    ensures forall r <- w.replies :: r.NeedJni? || r.Done?
  {
    hide History, RequestAt, ResultOf, LogFails, Stored, Finishes, IsResult, Rounds, Holds, Owns, Stale, Answered;
    NoRounds(p);
    forall k: nat | k <= p.n { RoundsNeedJni(p, k); }
  }

  lemma AnswersAre(p: Program, w: World)
    requires ValidProgram(p) && Inv(p, w)
    ensures w.got == History(p, |w.got|) && |w.got| <= p.n && w.replyReady + w.jniReady <= 1
  {
    hide History, RequestAt, ResultOf, LogFails, Stored, Finishes, IsResult, Rounds, Holds, Owns, Stale, Answered;
    NoRounds(p);
    HistoryLength(p, p.n);
  }

  /** The statuses and functions are those the binder thread expects, and with a request before it the access to
      the result comes too late. */
  lemma AsExpected(p: Program, w: World)
    requires ValidProgram(p) && Inv(p, w)
    ensures w.binder.BLeave? ==> !w.binder.reply.Unexpected?
    ensures w.binder.BMatch? ==> w.binder.func == w.call.func
    ensures w.binder.BResult? && p.n > 0 ==> !w.live
  {
    hide History, Rounds, RequestAt, ResultOf, LogFails, Stored, Holds, Owns, Finishes, IsResult, Waits;
    HistoryLength(p, p.n);
  }

  lemma ReadsAre(p: Program, w: World)
    requires ValidProgram(p) && Inv(p, w)
    ensures w.native.NReadData? ==> Readable(w, w.native.param)
    ensures w.binder.BData? && w.binder.length > 0 ==> Readable(w, w.binder.param)
    ensures w.binder.BCheck? ==> w.status == WAIT4JNI
  {
    hide History, RequestAt, ResultOf, LogFails, Stored, Finishes, IsResult, Rounds, Stale;
  }

  /** Which branches the binder thread does not take. */
  lemma BranchesAre(p: Program, w: World)
    requires ValidProgram(p) && Inv(p, w)
    ensures w.binder.BReply? ==> w.status == WAIT4JNI || w.status == FINISHED
    ensures w.binder.BFillLength? ==> w.binder.id in w.heap
    ensures w.binder.BData? && w.binder.length > 0 ==>
      Readable(w, w.binder.param) && w.binder.length == |Content(w, w.binder.param)|
  {
    hide History, ResultOf, LogFails, Stored, Finishes, IsResult, Rounds, Stale;
  }

  /** In every reachable state at most one semaphore is posted, once; no ERROR and no other unexpected status is ever
      sent, and no answer buffer is read after it was freed. */
  lemma Safety(p: Program, w: World)
    requires ValidProgram(p) && Inv(p, w)
    ensures w.replyReady + w.jniReady <= 1
    ensures forall r <- w.replies :: r.NeedJni? || r.Done?
    ensures w.native.NReadData? ==> Readable(w, w.native.param)
    ensures w.binder.BData? && w.binder.length > 0 ==> Readable(w, w.binder.param)
    ensures w.binder.BCheck? ==> w.status == WAIT4JNI
    ensures w.binder.BMatch? ==> w.binder.func == w.call.func
    ensures w.binder.BReply? ==> w.status == WAIT4JNI || w.status == FINISHED
    ensures w.binder.BFillLength? ==> w.binder.id in w.heap
    ensures w.binder.BData? && w.binder.length > 0 ==>
      Readable(w, w.binder.param) && w.binder.length == |Content(w, w.binder.param)|
    ensures w.got == History(p, |w.got|) && |w.got| <= p.n
  {
    hide Inv;
    BranchesAre(p, w);
    RepliesAre(p, w);
    AnswersAre(p, w);
    ReadsAre(p, w);
    AsExpected(p, w);
  }

  /** A run: consecutive states are one step apart, and the last state has no step left. */
  ghost predicate MaximalRun(p: Program, run: seq<World>) {
    && run != [] && Start(run[0])
    && (forall i :: 0 <= i < |run| - 1 ==> Next(p, run[i], run[i + 1]))
    && BinderStep(p, run[|run| - 1]).None? && NativeStep(p, run[|run| - 1]).None?
  }

  lemma {:induction false} RunHasInv(p: Program, run: seq<World>, i: nat)
    requires ValidProgram(p) && run != [] && Start(run[0]) && i < |run|
    requires forall j :: 0 <= j < |run| - 1 ==> Next(p, run[j], run[j + 1])
    ensures Inv(p, run[i]) && Left(p, run[i]) + i <= Left(p, run[0])
  {
    if i == 0 {
      StartHasInv(p, run[0]);
    } else {
      hide Inv, Next, Start, Left;
      RunHasInv(p, run, i - 1);
      assert Next(p, run[i - 1], run[i]);
      StepsRunOut(p, run[i - 1], run[i]);
    }
  }

  /** However the two threads are interleaved, the call ends, and the client has got the requests of the
      single-threaded execution in their order, WAIT4JNI once per request.

      When every access is in order it has got FINISHED and the result after them, and then both semaphores are back
      to zero, every buffer is freed and the next call can start. Else the log line has stopped the first reply, or
      the access to the result variable has stopped the call behind the last answer. */
  lemma EveryRunIsTheCall(p: Program, run: seq<World>)
    requires ValidProgram(p) && MaximalRun(p, run)
    ensures var w := run[|run| - 1];
      if Finishes(p) then
        && w.binder.BDone? && IsResult(p, w.binder.value)
        && w.replies == Rounds(p, p.n) + [Done(w.binder.value)] && w.got == History(p, p.n)
        && Start(w.(binder := BSetExec, native := NNone, live := true, got := [], replies := []))
      else if LogFails(p) then
        w.binder == BFailed && w.replies == []
      else
        && (if ResultOf(p).Some? then w.native == NCrashed else w.binder == BFailed)
        && w.replies == Rounds(p, p.n) && w.got == History(p, p.n)
    ensures |run| <= 29 * p.n + 42
  {
    RunHasInv(p, run, |run| - 1);
    EndOfRun(p, run[|run| - 1]);
    StartLeft(p, run[0]);
    LeftIsNatural(p, run[|run| - 1]);
  }

  lemma StartLeft(p: Program, w: World)
    requires Start(w)
    ensures Left(p, w) == 29 * p.n + 41
  {
  }

  lemma EndOfRun(p: Program, w: World)
    requires ValidProgram(p) && Inv(p, w) && BinderStep(p, w).None? && NativeStep(p, w).None?
    ensures
      if Finishes(p) then
        && w.binder.BDone? && IsResult(p, w.binder.value)
        && w.replies == Rounds(p, p.n) + [Done(w.binder.value)] && w.got == History(p, p.n)
        && Start(w.(binder := BSetExec, native := NNone, live := true, got := [], replies := []))
      else if LogFails(p) then
        w.binder == BFailed && w.replies == []
      else
        && (if ResultOf(p).Some? then w.native == NCrashed else w.binder == BFailed)
        && w.replies == Rounds(p, p.n) && w.got == History(p, p.n)
  {
    hide History, Rounds, RequestAt, ResultOf, LogFails;
    HistoryLength(p, p.n);
    if !w.binder.BDone? && !w.binder.BFailed? && !w.native.NCrashed? { NoDeadlock(p, w); }
    if w.native.NCrashed? { CrashedBehindAnswers(p, w); }
  }

  lemma CrashedBehindAnswers(p: Program, w: World)
    requires ValidProgram(p) && Inv(p, w) && w.native.NCrashed?
    ensures p.n > 0 && p.gone.Fails? && ResultOf(p).Some? && !LogFails(p) && !w.binder.BDone? && !w.binder.BFailed?
    ensures w.replies == Rounds(p, p.n) && w.got == History(p, p.n)
  {
    hide History, Rounds, RequestAt, ResultOf, LogFails, Stored, Finishes, IsResult, Holds, Owns, Answered;
    HistoryLength(p, p.n);
  }

  /** Every state of a call leads to a state in which neither thread has a step left. */
  lemma {:induction false} RunOn(p: Program, w: World) returns (run: seq<World>)
    requires ValidProgram(p) && Inv(p, w)
    ensures run != [] && run[0] == w && forall i :: 0 <= i < |run| - 1 ==> Next(p, run[i], run[i + 1])
    ensures BinderStep(p, run[|run| - 1]).None? && NativeStep(p, run[|run| - 1]).None?
    decreases Left(p, w)
  {
    hide Inv, Left, ValidProgram, BinderStep, NativeStep;
    run := [w];
    if BinderStep(p, w).Some? || NativeStep(p, w).Some? {
      var w' := if BinderStep(p, w).Some? then BinderStep(p, w).value else NativeStep(p, w).value;
      StepsRunOut(p, w, w');
      LeftBounds(p, w);
      var rest := RunOn(p, w');
      run := [w] + rest;
    }
  }

  lemma LeftBounds(p: Program, w: World)
    requires ValidProgram(p) && Inv(p, w)
    ensures Left(p, w) >= 0
  {
    hide Inv, ValidProgram, NativeLeft, BinderLeft;
    LeftIsNatural(p, w);
  }

  /** Every call can be run to its end, by choosing the steps in any way. */
  lemma CallsEnd(p: Program, w: World) returns (run: seq<World>)
    requires ValidProgram(p) && Start(w)
    ensures MaximalRun(p, run) && run[0] == w
  {
    hide Inv, ValidProgram, BinderStep, NativeStep;
    StartHasInv(p, w);
    run := RunOn(p, w);
  }

  // ----- accesses to memory that is gone

  /** Behind the access to the result, or stopped. */
  predicate PastResult(w: World) {
    w.binder.BDone? || w.binder.BFailed? || w.native.NCrashed? || (w.binder.BLeave? && w.binder.reply.Done?)
  }

  lemma NativePast(p: Program, w: World)
    requires NativeStep(p, w).Some? && !PastResult(w) && PastResult(NativeStep(p, w).value)
    ensures BadAccess(w)
  {
    hide Readable, Content;
  }

  lemma BinderPast(p: Program, w: World)
    requires ValidProgram(p) && Inv(p, w) && BinderStep(p, w).Some? && p.n > 0
    requires !PastResult(w) && PastResult(BinderStep(p, w).value)
    ensures BadAccess(w)
  {
    hide Inv, Readable, Content, Take, LeadsToInt;
    AsExpected(p, w);
  }

  /** With a request before it, the access to the result is a bad one; so is the log line that stops a call. */
  lemma PastBadAccess(p: Program, w: World, w': World)
    requires ValidProgram(p) && Inv(p, w) && Next(p, w, w') && p.n > 0 && !PastResult(w) && PastResult(w')
    ensures BadAccess(w)
  {
    hide Inv, BinderStep, NativeStep, BadAccess, PastResult;
    if BinderStep(p, w) == Some(w') { BinderPast(p, w); } else { NativePast(p, w); }
  }

  lemma {:induction false} BadAccessBefore(p: Program, run: seq<World>, i: nat)
    requires ValidProgram(p) && MaximalRun(p, run) && i < |run| && p.n > 0 && PastResult(run[i])
    ensures exists w <- run :: BadAccess(w)
  {
    hide Inv, Next, BadAccess, ValidProgram;
    if i > 0 {
      if PastResult(run[i - 1]) {
        BadAccessBefore(p, run, i - 1);
      } else {
        RunHasInv(p, run, i - 1);
        assert Next(p, run[i - 1], run[i]);
        PastBadAccess(p, run[i - 1], run[i]);
        assert run[i - 1] in run;
      }
    }
  }

  lemma NoRequestNoBadAccess(p: Program, w: World)
    requires ValidProgram(p) && Inv(p, w) && p.n == 0
    ensures !BadAccess(w)
  {
    hide History, Rounds, RequestAt, ResultOf, LogFails, Holds;
    Safety(p, w);
  }

  /** The result variable outlives every access to it exactly when native code returns without a request: with
      requests, every run reads or writes memory that is gone. */
  lemma BadAccessExactly(p: Program, run: seq<World>)
    requires ValidProgram(p) && MaximalRun(p, run)
    ensures (exists w <- run :: BadAccess(w)) <==> p.n > 0
  {
    hide Inv, Next, BadAccess, ValidProgram, BinderStep, NativeStep, History, Rounds;
    var last: nat := |run| - 1;
    if p.n > 0 {
      EveryRunIsTheCall(p, run);
      BadAccessBefore(p, run, last);
    } else {
      forall w | w in run
        ensures !BadAccess(w)
      {
        var i :| 0 <= i < |run| && run[i] == w;
        RunHasInv(p, run, i);
        NoRequestNoBadAccess(p, w);
      }
    }
  }

  // ----- concrete programs

  /** Native code that makes n requests of four bytes and returns how many answers it got: a program for every n. */
  function Asking(n: nat, gone: Gone, log: bool): Program {
    Program((h: seq<Data>) => if |h| < n then Ask(Request(|h|, Points([0, 0, 0, |h|]))) else Return(Some(|h|)),
            (k: nat, func: int, data: Data) => data, n, gone, log)
  }

  lemma {:induction false} AskingHistory(n: nat, gone: Gone, log: bool, k: nat)
    requires k <= n
    ensures |History(Asking(n, gone, log), k)| == k
  {
    if k > 0 { AskingHistory(n, gone, log, k - 1); }
  }

  lemma AskingIsValid(n: nat, gone: Gone, log: bool)
    ensures ValidProgram(Asking(n, gone, log)) && !LogFails(Asking(n, gone, log))
    ensures ResultOf(Asking(n, gone, log)) == Some(n)
  {
    forall k: nat | k <= n { AskingHistory(n, gone, log, k); }
  }

  /** One request is enough: where a dead frame is an error, every run stops at the store of the result; where its
      memory is used again, the client gets that number instead of 1. */
  lemma OneRequestLosesResult(number: int -> int, run: seq<World>)
    ensures MaximalRun(Asking(1, Fails, false), run) ==>
      run[|run| - 1].native == NCrashed && |run[|run| - 1].replies| == 1
    ensures MaximalRun(Asking(1, Yields(number), false), run) ==> run[|run| - 1].binder == BDone(number(1))
  {
    hide History, MaximalRun, Rounds;
    AskingIsValid(1, Fails, false);
    AskingIsValid(1, Yields(number), false);
    if MaximalRun(Asking(1, Fails, false), run) { EveryRunIsTheCall(Asking(1, Fails, false), run); }
    if MaximalRun(Asking(1, Yields(number), false), run) { EveryRunIsTheCall(Asking(1, Yields(number), false), run); }
  }

  /** Native code whose only request asks for the version: it has no parameters and keeps the pointer. */
  function AskingVersion(log: bool): Program {
    Program((h: seq<Data>) => if |h| == 0 then Ask(Request(3, Kept)) else Return(None),
            (k: nat, func: int, data: Data) => [6, 0, 1, 0], 1, Yields((x: int) => x), log)
  }

  lemma AskingVersionIsValid(log: bool)
    ensures ValidProgram(AskingVersion(log)) && (LogFails(AskingVersion(log)) <==> log)
  {
    var p := AskingVersion(log);
    assert History(p, 0) == [];
    assert |History(p, 1)| == 1;
  }

  /** Asked first, the version stops the call exactly when the log line is compiled in. */
  lemma VersionFirst(log: bool, run: seq<World>)
    requires MaximalRun(AskingVersion(log), run)
    ensures if log then run[|run| - 1].binder == BFailed else run[|run| - 1].binder.BDone?
  {
    hide History, MaximalRun, Rounds, LogFails;
    AskingVersionIsValid(log);
    EveryRunIsTheCall(AskingVersion(log), run);
  }

  // ----- answer buffers

  lemma OnlyLeavingFrees(p: Program, w: World, id: nat)
    requires BinderStep(p, w).Some? && id in w.heap && id !in BinderStep(p, w).value.heap
    ensures w.binder.BLeave? && w.binder.raw == Some(id)
  {
  }

  /** An answer buffer is freed only after native code has read that answer and has posted again. */
  lemma FreedAfterNextPost(p: Program, w: World, w': World, id: nat)
    requires ValidProgram(p) && Inv(p, w) && BinderStep(p, w) == Some(w')
    requires id in w.heap && id !in w'.heap
    ensures w.got != [] && w.got[|w.got| - 1] == w.heap[id]
    ensures w.native in {NWait, NExit} && w.jniReady == 0
  {
    hide History, Rounds, RequestAt, ResultOf, Waits, Working, Owns, LogFails, Stored;
    OnlyLeavingFrees(p, w, id);
  }
}
