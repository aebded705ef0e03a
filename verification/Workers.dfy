/**
 * The dispatcher and its workers as atomic steps over one shared table with no table lock.
 * A worker takes the front job, searches, writes the bucket, rebuilds the root, answers and pops
 * as separate steps, so the steps of all workers interleave freely.
 */
module Workers {
  import opened Collections
  import opened Bytes
  import opened Table
  import opened TableProofs
  import opened Requests
  import Partition

  /** A reply buffer. */
  type Buffer = seq<byte>

  datatype Job = Serve(req: Request) | Quit

  datatype Answer = Answer(req: Request, reply: Buffer)

  /**
   * Where a worker is in its loop. `pre` and `rand` in Written are history: the table the worker
   * searched and the counter block it drew.
   */
  datatype Pc =
    | Idle
    | Serving(req: Request)
    | Searched(req: Request, pos: nat, found: bool)
    | Written(req: Request, pos: nat, isInsert: bool, prev: Mac, pre: Store, rand: Nac)
    | Answering(req: Request, reply: Buffer)
    | Popping(req: Request)
    | Quitting
    | Stopped

  datatype Dispatcher = Ready | SendingQuit(next: nat)

  /**
   * The whole system. History: `log` is every request in dispatch order, `answers[w]` what worker
   * w has returned, `quitAt[w]` how many requests were queued to w when its first quit was,
   * `failed` the groups whose root check has failed, and `tainted` the groups where an APPEND
   * under mac_opt has written a slot that is not its own mirror.
   */
  datatype State = State(
    store: Store,
    log: seq<Request>,
    queues: seq<seq<Job>>,
    pcs: seq<Pc>,
    dispatcher: Dispatcher,
    answers: seq<seq<Answer>>,
    quitAt: seq<Option<nat>>,
    failed: set<nat>,
    tainted: set<nat>)

  datatype Step =
    | Dispatch(buf: seq<byte>)
    | StartQuit
    | PushQuit
    | Take(w: nat)
    | Search(w: nat)
    | Write(w: nat, rand: Nac, junk: Mac)
    | Root(w: nat)
    | Miss(w: nat)
    | Check(w: nat)
    | Return(w: nat)
    | Pop(w: nat)
    | Stop(w: nat)

  /** What the parser guarantees about every request: a C string for a key that fits a reply. */
  predicate Servable(req: Request, maxBuf: nat) {
    NulFree(req.key) && |req.key| < maxBuf
  }

  /** Both divisions are exact and no root group straddles two workers. */
  ghost predicate ValidSetup(cfg: Config, n: nat) {
    && ValidConfig(cfg)
    && 0 < n <= cfg.size
    && cfg.size % n == 0
    && 0 < Ratio(cfg)
    && (cfg.size / n) % Ratio(cfg) == 0
  }

  /** The worker that serves a bucket. */
  function WorkerOf(cfg: Config, n: nat, b: nat): (w: nat)
    requires ValidSetup(cfg, n) && b < cfg.size
    ensures w < n
  {
    Partition.Owner(cfg.size, n, b)
  }

  /** The worker a request is dispatched to. */
  function Route(cfg: Config, n: nat, req: Request): (w: nat)
    requires ValidSetup(cfg, n)
    ensures w < n
  {
    WorkerOf(cfg, n, BinOf(cfg, req.key))
  }

  function BinOfRequest(cfg: Config, req: Request): (b: nat)
    requires 0 < cfg.size
    ensures b < cfg.size
  {
    BinOf(cfg, req.key)
  }

  function GroupOfRequest(cfg: Config, req: Request): (g: nat)
    requires ValidConfig(cfg)
    ensures IsGroup(cfg, g)
  {
    GroupOf(cfg, BinOfRequest(cfg, req))
  }

  // ---------------------------------------------------------------- the sequential specification

  function SpecApply(r: Request, m: KeyMap): KeyMap {
    match r.op
    case Get => m
    case Set => m[r.key := r.val]
    case Append => if r.key in m then m[r.key := m[r.key] + r.val] else m
  }

  /** A value and its terminator at the front of a zeroed reply buffer. */
  function ValueReply(v: seq<byte>, n: nat): (r: Buffer)
    ensures |r| == n
  {
    if |v| + 1 <= n then Padded(v + [NUL], n) else (v + [NUL])[..n]
  }

  function SpecReply(maxBuf: nat, r: Request, m: KeyMap): Buffer {
    match r.op
    case Get => if r.key in m then ValueReply(m[r.key], maxBuf) else r.echo
    case Set => ValueReply(r.key, maxBuf)
    case Append => if r.key in m then ValueReply(r.key, maxBuf) else r.echo
  }

  /** The plain map after running all requests of a log in order. */
  function SpecRun(log: seq<Request>): KeyMap
  {
    if log == [] then map[]
    else SpecApply(log[|log| - 1], SpecRun(log[..|log| - 1]))
  }

  /** The requests of a log that are routed to worker w, in order. */
  function Mine(cfg: Config, n: nat, log: seq<Request>, w: nat): (r: seq<Request>)
    requires ValidSetup(cfg, n)
    ensures forall i :: 0 <= i < |r| ==> r[i] in log && Route(cfg, n, r[i]) == w
  {
    if log == [] then []
    else
      var last := log[|log| - 1];
      var front := Mine(cfg, n, log[..|log| - 1], w);
      if Route(cfg, n, last) == w then front + [last] else front
  }

  function SpecAnswer(maxBuf: nat, req: Request, m: KeyMap): Answer {
    Answer(req, SpecReply(maxBuf, req, m))
  }

  /** The answers of running a log in order on one plain map. */
  function SpecAnswers(maxBuf: nat, log: seq<Request>): (r: seq<Answer>)
    ensures |r| == |log| && forall i :: 0 <= i < |r| ==> r[i].req == log[i]
  {
    if log == [] then []
    else
      var front, last := log[..|log| - 1], log[|log| - 1];
      SpecAnswers(maxBuf, front) + [SpecAnswer(maxBuf, last, SpecRun(front))]
  }

  /** Of a list of answers, those to requests routed to w. */
  function OnlyOf(cfg: Config, n: nat, answers: seq<Answer>, w: nat): seq<Answer>
    requires ValidSetup(cfg, n)
  {
    if answers == [] then []
    else
      var last := answers[|answers| - 1];
      OnlyOf(cfg, n, answers[..|answers| - 1], w) + (if Route(cfg, n, last.req) == w then [last] else [])
  }

  // ---------------------------------------------------------------- the steps

  predicate Sizes(n: nat, st: State) {
    |st.queues| == n && |st.pcs| == n && |st.answers| == n && |st.quitAt| == n
  }

  function Init(n: nat, store: Store): State {
    State(store, [], seq(n, i => []), seq(n, i => Idle), Ready, seq(n, i => []), seq(n, i => None), {}, {})
  }

  /** The position the search loop stops at, in the mode the configuration selects. */
  function SearchIn(cfg: Config, chain: seq<Entry>, key: seq<byte>): (p: nat)
    ensures p <= |chain|
  {
    if cfg.keyOpt then HintFind(cfg.cipher, chain, key) else Find(cfg.cipher, chain, key)
  }

  /** The slot an APPEND writes under mac_opt is the right one only in the middle of the chain. */
  predicate Misaligned(cfg: Config, op: Op, pos: nat, chain: seq<Entry>) {
    op == Append && cfg.macOpt && 2 * pos + 1 != |chain|
  }

  /**
   * When a step can be taken. Besides control flow this keeps the run inside its buffers: an
   * insert finds one of the 30 MAC slots free, and a value returned by GET fits the reply.
   */
  ghost predicate Enabled(cfg: Config, n: nat, st: State, step: Step)
    requires ValidSetup(cfg, n) && Shape(cfg, st.store) && Sizes(n, st)
  {
    match step
    case Dispatch(buf) => st.dispatcher.Ready? && WellFormed(buf, cfg.maxBuf)
    case StartQuit => st.dispatcher.Ready?
    case PushQuit => st.dispatcher.SendingQuit? && st.dispatcher.next < n
    case Take(w) => w < n && st.pcs[w].Idle? && st.queues[w] != []
    case Search(w) => w < n && st.pcs[w].Serving?
    case Write(w, _, _) =>
      && w < n && st.pcs[w].Searched? && WriteEnabled(cfg, st.store, st.pcs[w])
    case Root(w) =>
      && w < n && st.pcs[w].Written? && RootEnabled(cfg, st.store, st.pcs[w])
    case Miss(w) =>
      && w < n && st.pcs[w].Searched?
      && st.pcs[w].req.op != Set && !st.pcs[w].found
    case Check(w) =>
      && w < n && st.pcs[w].Searched? && CheckEnabled(cfg, st.store, st.pcs[w])
    case Return(w) => w < n && st.pcs[w].Answering?
    case Pop(w) => w < n && st.pcs[w].Popping? && st.queues[w] != []
    case Stop(w) => w < n && st.pcs[w].Quitting? && st.queues[w] != []
  }

  predicate WriteEnabled(cfg: Config, store: Store, pc: Pc)
    requires 0 < cfg.size && Shape(cfg, store) && pc.Searched?
  {
    var chain := store.chains[BinOfRequest(cfg, pc.req)];
    && pc.pos <= |chain|
    && (pc.found <==> pc.pos < |chain|)
    && (pc.req.op == Set || (pc.req.op == Append && pc.found))
    && (cfg.macOpt && !pc.found ==> |chain| < SLOTS)
  }

  predicate CheckEnabled(cfg: Config, store: Store, pc: Pc)
    requires 0 < cfg.size && Shape(cfg, store) && pc.Searched?
  {
    var chain := store.chains[BinOfRequest(cfg, pc.req)];
    && pc.req.op == Get && pc.found && pc.pos < |chain|
    && |ValIn(cfg.cipher, chain[pc.pos])| < cfg.maxBuf
  }

  ghost predicate RootEnabled(cfg: Config, store: Store, pc: Pc)
    requires ValidConfig(cfg) && Shape(cfg, store) && pc.Written?
  {
    0 <= RebuildIndex(cfg, store, BinOfRequest(cfg, pc.req), pc.pos, pc.isInsert)
      < |GroupAgg(cfg, store, GroupOfRequest(cfg, pc.req))|
  }

  /** The table after the write step of a SET or of an APPEND that hit. */
  function WriteTable(cfg: Config, store: Store, req: Request, pos: nat, rand: Nac): (t: Store)
    requires 0 < cfg.size && Shape(cfg, store)
    requires pos <= |store.chains[BinOfRequest(cfg, req)]|
    requires req.op != Set ==> pos < |store.chains[BinOfRequest(cfg, req)]|
    ensures Shape(cfg, t)
  {
    var b := BinOfRequest(cfg, req);
    if req.op == Set then
      SetAt(cfg, store, b, Seal(cfg.cipher, req.key, req.val, SetNac(cfg, store, b, pos, rand)), pos)
    else
      AppendAt(cfg, store, b, AppendEntry(cfg, store.chains[b][pos], req.key, req.val), pos)
  }

  ghost function Next(cfg: Config, n: nat, st: State, step: Step): State
    requires ValidSetup(cfg, n) && Shape(cfg, st.store) && Sizes(n, st) && Enabled(cfg, n, st, step)
  {
    match step
    case Dispatch(buf) =>
      var req := Parse(buf);
      var w := Route(cfg, n, req);
      st.(log := st.log + [req], queues := st.queues[w := st.queues[w] + [Serve(req)]])
    case StartQuit =>
      st.(dispatcher := SendingQuit(0))
    case PushQuit =>
      var i := st.dispatcher.next;
      st.(queues := st.queues[i := st.queues[i] + [Quit]],
          quitAt := if st.quitAt[i].None? then st.quitAt[i := Some(Queued(st.pcs[i], st.answers[i], st.queues[i]))] else st.quitAt,
          dispatcher := if i + 1 == n then Ready else SendingQuit(i + 1))
    case Take(w) =>
      st.(pcs := st.pcs[w := if st.queues[w][0].Quit? then Quitting else Serving(st.queues[w][0].req)])
    case Search(w) =>
      var req := st.pcs[w].req;
      var chain := st.store.chains[BinOfRequest(cfg, req)];
      var pos := SearchIn(cfg, chain, req.key);
      st.(pcs := st.pcs[w := Searched(req, pos, pos < |chain|)])
    case Write(w, rand, junk) =>
      var pc := st.pcs[w];
      var b := BinOfRequest(cfg, pc.req);
      var chain := st.store.chains[b];
      st.(store := WriteTable(cfg, st.store, pc.req, pc.pos, rand),
          pcs := st.pcs[w := Written(pc.req, pc.pos, !pc.found, PrevMac(st.store, b, pc.pos, junk), st.store, rand)],
          tainted := if Misaligned(cfg, pc.req.op, pc.pos, chain)
                     then st.tainted + {GroupOfRequest(cfg, pc.req)} else st.tainted)
    case Root(w) =>
      var pc := st.pcs[w];
      var r := Rebuild(cfg, st.store, BinOfRequest(cfg, pc.req), pc.pos, pc.isInsert, pc.prev);
      st.(store := r.store,
          pcs := st.pcs[w := Answering(pc.req, ValueReply(pc.req.key, cfg.maxBuf))],
          failed := if r.ok then st.failed else st.failed + {GroupOfRequest(cfg, pc.req)})
    case Miss(w) =>
      st.(pcs := st.pcs[w := Answering(st.pcs[w].req, st.pcs[w].req.echo)])
    case Check(w) =>
      var pc := st.pcs[w];
      var b := BinOfRequest(cfg, pc.req);
      var v := ValIn(cfg.cipher, st.store.chains[b][pc.pos]);
      st.(pcs := st.pcs[w := Answering(pc.req, ValueReply(v, cfg.maxBuf))],
          failed := if RootVerifies(cfg, st.store, b) then st.failed
                    else st.failed + {GroupOfRequest(cfg, pc.req)})
    case Return(w) =>
      st.(answers := st.answers[w := st.answers[w] + [Answer(st.pcs[w].req, st.pcs[w].reply)]],
          pcs := st.pcs[w := Popping(st.pcs[w].req)])
    case Pop(w) =>
      st.(queues := st.queues[w := st.queues[w][1..]], pcs := st.pcs[w := Idle])
    case Stop(w) =>
      st.(queues := st.queues[w := st.queues[w][1..]], pcs := st.pcs[w := Stopped])
  }

  /** The requests among a list of jobs. */
  function Requested(jobs: seq<Job>): seq<Request> {
    if jobs == [] then []
    else Requested(jobs[..|jobs| - 1]) + (if jobs[|jobs| - 1].Serve? then [jobs[|jobs| - 1].req] else [])
  }

  /** Requests popped by a worker: answered ones, less the one it has answered but not popped. */
  function Popped(pc: Pc, answers: seq<Answer>): int {
    |answers| - (if pc.Popping? then 1 else 0)
  }

  /** How many requests have ever been queued to a worker. */
  function Queued(pc: Pc, answers: seq<Answer>, queue: seq<Job>): nat {
    var k := Popped(pc, answers) + |Requested(queue)|;
    if k < 0 then 0 else k
  }
}
