/**
 The authentication middleware in front of the handlers, as a state machine over the steps of any number
 of concurrent requests that share one cache and one helper.
 */
module Gateway {
  import opened Clock
  import opened Results
  import opened AuthCache
  import opened Handlers

  datatype Config = Config(socket: string, digest: Digest)

  /** What the helper answers to an authentication. */
  datatype Reply = Granted(role: string) | Denied | Unavailable

  /** Whether the middleware asks for credentials: not for the liveness probe, and not at all without a socket. */
  predicate Guarded(c: Config, r: Request) {
    c.socket != "" && r.path != "/healthz"
  }

  predicate HasUser(r: Request) {
    r.credentials.Some? && r.credentials.value.0 != ""
  }

  function KeyOf(c: Config, r: Request): string
    requires HasUser(r)
  {
    CacheKey(c.digest, r.credentials.value.0, r.credentials.value.1)
  }

  // ----- One request by itself

  datatype Verdict = Pass(role: string) | Reject(status: int)

  /** The verdict on a request that finds the cache after `sets`, with the helper's reply should it be asked. */
  function VerdictOf(c: Config, sets: seq<SetRecord>, r: Request, lookupAt: Time, reply: Reply): Verdict {
    if !Guarded(c, r) then Pass("")
    else if !HasUser(r) then Reject(401)
    else
      match Scan(sets, KeyOf(c, r), lookupAt)
      case Some(role) => Pass(role)
      case None => VerdictOn(reply)
  }

  function VerdictOn(reply: Reply): Verdict {
    match reply
    case Granted(role) => Pass(role)
    case Denied => Reject(401)
    case Unavailable => Reject(503)
  }

  /** Only a granted miss changes the cache. */
  function SetsAfter(c: Config, sets: seq<SetRecord>, r: Request, lookupAt: Time, reply: Reply, setAt: Time): seq<SetRecord> {
    if Guarded(c, r) && HasUser(r) && Scan(sets, KeyOf(c, r), lookupAt).None? && reply.Granted?
    then sets + [SetRecord(KeyOf(c, r), reply.role, setAt)]
    else sets
  }

  // ----- The verdict, read off the request

  /** A `set` of the credentials' key, no older than five minutes, is still in force. */
  ghost predicate Remembered(c: Config, sets: seq<SetRecord>, user: string, password: string, now: Time) {
    exists k: nat :: IsCurrent(sets, k, user + ":" + c.digest(password), now)
  }

  /** What the middleware decides on a request. */
  ghost predicate Answers(c: Config, sets: seq<SetRecord>, r: Request, now: Time, reply: Reply, v: Verdict) {
    if c.socket == "" || r.path == "/healthz" then v == Pass("")
    else
      match r.credentials
      case None => v == Reject(401)
      case Some((user, password)) =>
        if user == "" then v == Reject(401)
        else if Remembered(c, sets, user, password, now) then
          exists k: nat :: IsCurrent(sets, k, user + ":" + c.digest(password), now) && v == Pass(sets[k].role)
        else
          && (reply == Denied ==> v == Reject(401))
          && (reply == Unavailable ==> v == Reject(503))
          && (reply.Granted? ==> v == Pass(reply.role))
  }

  /** What it adds to the cache: the role that the helper has just given for credentials not remembered. */
  ghost function Recorded(c: Config, sets: seq<SetRecord>, r: Request, now: Time, reply: Reply, setAt: Time): seq<SetRecord> {
    if c.socket == "" || r.path == "/healthz" || r.credentials.None? || !reply.Granted? then []
    else
      var (user, password) := r.credentials.value;
      if user == "" || Remembered(c, sets, user, password, now) then []
      else [SetRecord(user + ":" + c.digest(password), reply.role, setAt)]
  }

  /** Without credentials only the liveness probe passes, and everything when there is no socket. */
  lemma VerdictAnswers(c: Config, sets: seq<SetRecord>, r: Request, now: Time, reply: Reply, setAt: Time)
    ensures Answers(c, sets, r, now, reply, VerdictOf(c, sets, r, now, reply))
    ensures SetsAfter(c, sets, r, now, reply, setAt) == sets + Recorded(c, sets, r, now, reply, setAt)
    ensures VerdictOf(c, sets, r, now, reply).Pass? && (r.credentials.None? || r.credentials.value.0 == "") ==>
      c.socket == "" || r.path == "/healthz"
  {
    if r.credentials.Some? {
      ScanRole(sets, r.credentials.value.0 + ":" + c.digest(r.credentials.value.1), now);
    }
  }

  /** The middleware for one request that no other runs beside, with the helper's reply should it be asked. */
  method Authenticate(c: Config, cache: Cache, r: Request, lookupAt: Time, reply: Reply, setAt: Time) returns (v: Verdict)
    requires cache.Valid() && cache.digest == c.digest
    modifies cache
    ensures cache.Valid()
    ensures v == VerdictOf(c, old(cache.sets), r, lookupAt, reply)
    ensures cache.sets == SetsAfter(c, old(cache.sets), r, lookupAt, reply, setAt)
    ensures Answers(c, old(cache.sets), r, lookupAt, reply, v)
    ensures cache.sets == old(cache.sets) + Recorded(c, old(cache.sets), r, lookupAt, reply, setAt)
  {
    VerdictAnswers(c, cache.sets, r, lookupAt, reply, setAt);
    if c.socket == "" {
      return Pass("");
    }
    if r.path == "/healthz" {
      return Pass("");
    }
    if r.credentials.None? || r.credentials.value.0 == "" {
      return Reject(401);
    }
    var (username, password) := r.credentials.value;
    var role, hit := cache.Get(username, password, lookupAt);
    if hit {
      return Pass(role);
    }
    if reply.Unavailable? {
      return Reject(503);
    }
    if reply.Denied? {
      return Reject(401);
    }
    cache.Set(username, password, reply.role, setAt);
    return Pass(reply.role);
  }

  // ----- Many requests

  /** Where a request's role comes from: nowhere, the cache after so many `set`s, or an answer of the helper. */
  datatype Source = Public | FromCache(sets: nat) | FromHelper(answer: nat)

  datatype Phase =
    | Arrived
    | Asking                                        // cache miss; the helper has been called
    | Answered(role: string, answer: nat)           // an Ok answer, to be put into the cache
    | Serving(role: string, source: Source, at: Time)
    | Finished

  datatype Live = Live(request: Request, phase: Phase)

  /** An Ok answer of the helper; denials and errors leave no record. */
  datatype Answer = Answer(key: string, role: string, at: Time)

  /** A request passed on to its handler. */
  datatype Served = Served(request: Request, role: string, source: Source, at: Time)

  /** An operation sent to the helper. */
  datatype Sent = Sent(request: Request, op: HelperOp)

  /** The last four fields are history. */
  datatype State = State(
    clock: Time, items: map<string, Entry>, requests: seq<Live>,
    answers: seq<Answer>, sets: seq<SetRecord>, served: seq<Served>, sent: seq<Sent>)

  datatype Action = Tick(elapsed: nat) | New(request: Request) | Run(i: nat, reply: Reply)

  function Init(clock: Time): State {
    State(clock, map[], [], [], [], [], [])
  }

  function Goto(s: State, i: nat, phase: Phase): State
    requires i < |s.requests|
  {
    s.(requests := s.requests[i := s.requests[i].(phase := phase)])
  }

  /** Passing request `i` on with a role. */
  function PassOn(s: State, i: nat, role: string, source: Source): State
    requires i < |s.requests|
  {
    Goto(s.(served := s.served + [Served(s.requests[i].request, role, source, s.clock)]),
         i, Serving(role, source, s.clock))
  }

  function StepRequest(c: Config, s: State, i: nat, reply: Reply): State
    requires i < |s.requests|
  {
    var r := s.requests[i].request;
    match s.requests[i].phase
    case Arrived =>
      if !Guarded(c, r) then PassOn(s, i, "", Public)
      else if !HasUser(r) then Goto(s, i, Finished)
      else
        (match Lookup(s.items, KeyOf(c, r), s.clock)
         case Some(role) => PassOn(s, i, role, FromCache(|s.sets|))
         case None => Goto(s, i, Asking))
    case Asking =>
      (match reply
       case Granted(role) =>
         if HasUser(r) then
           Goto(s.(answers := s.answers + [Answer(KeyOf(c, r), role, s.clock)]), i, Answered(role, |s.answers|))
         else s
       case Denied => Goto(s, i, Finished)
       case Unavailable => Goto(s, i, Finished))
    case Answered(role, answer) =>
      if HasUser(r) then
        PassOn(s.(items := Insert(s.items, KeyOf(c, r), role, s.clock),
                  sets := s.sets + [SetRecord(KeyOf(c, r), role, s.clock)]),
               i, role, FromHelper(answer))
      else s
    case Serving(role, _, _) =>
      (match Sends(r, role, c.socket)
       case Some(op) => Goto(s.(sent := s.sent + [Sent(r, op)]), i, Finished)
       case None => Goto(s, i, Finished))
    case Finished => s
  }

  function Apply(c: Config, s: State, a: Action): (s': State)
    ensures |s'.requests| >= |s.requests|
  {
    match a
    case Tick(d) => s.(clock := s.clock + d)
    case New(r) => s.(requests := s.requests + [Live(r, Arrived)])
    case Run(i, reply) => if i < |s.requests| then StepRequest(c, s, i, reply) else s
  }

  /** The state after any interleaving of arrivals, request steps and the passing of time. */
  function Exec(c: Config, s: State, acts: seq<Action>): State
    decreases |acts|
  {
    if acts == [] then s else Apply(c, Exec(c, s, acts[..|acts| - 1]), acts[|acts| - 1])
  }

  // ----- Invariants

  /** The helper gave this role for this key at some time up to `now`. */
  ghost predicate Vouched(answers: seq<Answer>, key: string, role: string, now: Time) {
    exists k :: 0 <= k < |answers| && answers[k].key == key && answers[k].role == role && answers[k].at <= now
  }

  ghost predicate PhaseInv(c: Config, s: State, l: Live) {
    match l.phase
    case Arrived => true
    case Asking => Guarded(c, l.request) && HasUser(l.request)
    case Answered(role, answer) =>
      && Guarded(c, l.request) && HasUser(l.request)
      && answer < |s.answers| && s.answers[answer].key == KeyOf(c, l.request)
      && s.answers[answer].role == role && s.answers[answer].at <= s.clock
    case Serving(role, source, at) => Served(l.request, role, source, at) in s.served
    case Finished => true
  }

  /** The role of a request that was passed on is accounted for. */
  ghost predicate Accounted(c: Config, s: State, v: Served) {
    if !Guarded(c, v.request) then v.role == "" && v.source == Public
    else
      && HasUser(v.request) && v.at <= s.clock
      && Vouched(s.answers, KeyOf(c, v.request), v.role, v.at)
      && match v.source
         case Public => false
         case FromCache(n) => n <= |s.sets| && Scan(s.sets[..n], KeyOf(c, v.request), v.at) == Some(v.role)
         case FromHelper(k) =>
           && k < |s.answers| && s.answers[k].key == KeyOf(c, v.request)
           && s.answers[k].role == v.role && s.answers[k].at <= v.at
  }

  ghost predicate SetInv(s: State, r: SetRecord) {
    r.at <= s.clock && Vouched(s.answers, r.key, r.role, r.at)
  }

  ghost predicate SentInv(c: Config, s: State, x: Sent) {
    exists v :: v in s.served && v.request == x.request && Sends(x.request, v.role, c.socket) == Some(x.op)
  }

  ghost predicate Inv(c: Config, s: State) {
    && Holds(s.items, s.sets)
    && (forall i :: 0 <= i < |s.requests| ==> PhaseInv(c, s, s.requests[i]))
    && (forall v :: v in s.served ==> Accounted(c, s, v))
    && (forall k :: 0 <= k < |s.sets| ==> SetInv(s, s.sets[k]))
    && (forall x :: x in s.sent ==> SentInv(c, s, x))
  }

  /** The histories of `s` are prefixes of those of `s'`, and the clock did not go back. */
  ghost predicate Grows(s: State, s': State) {
    && s.clock <= s'.clock && s.answers <= s'.answers && s.sets <= s'.sets
    && s.served <= s'.served && s.sent <= s'.sent
  }

  lemma VouchedGrows(a: seq<Answer>, a': seq<Answer>, key: string, role: string, now: Time)
    requires a <= a' && Vouched(a, key, role, now)
    ensures Vouched(a', key, role, now)
  {
    var k :| 0 <= k < |a| && a[k].key == key && a[k].role == role && a[k].at <= now;
    assert a'[k] == a[k];
  }

  lemma AccountedGrows(c: Config, s: State, s': State, v: Served)
    requires Grows(s, s') && Accounted(c, s, v)
    ensures Accounted(c, s', v)
  {
    if Guarded(c, v.request) {
      VouchedGrows(s.answers, s'.answers, KeyOf(c, v.request), v.role, v.at);
      if v.source.FromCache? {
        assert s'.sets[..v.source.sets] == s.sets[..v.source.sets];
      }
    }
  }

  lemma PhaseGrows(c: Config, s: State, s': State, l: Live)
    requires Grows(s, s') && PhaseInv(c, s, l)
    ensures PhaseInv(c, s', l)
  {
    if l.phase.Serving? {
      assert Served(l.request, l.phase.role, l.phase.source, l.phase.at) in s'.served;
    }
  }

  lemma SentGrows(c: Config, s: State, s': State, x: Sent)
    requires Grows(s, s') && SentInv(c, s, x)
    ensures SentInv(c, s', x)
  {
    var v :| v in s.served && v.request == x.request && Sends(x.request, v.role, c.socket) == Some(x.op);
    assert v in s'.served;
  }

  /** What was known of the recorded history stays known. */
  lemma HistoryGrows(c: Config, s: State, s': State)
    requires Inv(c, s) && Grows(s, s')
    ensures forall i :: 0 <= i < |s.requests| ==> PhaseInv(c, s', s.requests[i])
    ensures forall v :: v in s.served ==> Accounted(c, s', v)
    ensures forall k :: 0 <= k < |s.sets| ==> SetInv(s', s.sets[k])
    ensures forall x :: x in s.sent ==> SentInv(c, s', x)
  {
    forall i | 0 <= i < |s.requests| ensures PhaseInv(c, s', s.requests[i]) {
      PhaseGrows(c, s, s', s.requests[i]);
    }
    forall v | v in s.served ensures Accounted(c, s', v) {
      AccountedGrows(c, s, s', v);
    }
    forall k | 0 <= k < |s.sets| ensures SetInv(s', s.sets[k]) {
      VouchedGrows(s.answers, s'.answers, s.sets[k].key, s.sets[k].role, s.sets[k].at);
    }
    forall x | x in s.sent ensures SentInv(c, s', x) {
      SentGrows(c, s, s', x);
    }
  }

  lemma LookupScans(items: map<string, Entry>, sets: seq<SetRecord>, key: string, now: Time)
    requires Holds(items, sets)
    ensures Lookup(items, key, now) == Scan(sets, key, now)
  {
  }

  lemma {:induction false} LastSetIsIn(sets: seq<SetRecord>, key: string) returns (k: nat)
    requires LastSet(sets, key).Some?
    ensures k < |sets| && sets[k].key == key && LastSet(sets, key) == Some(sets[k])
  {
    if sets[|sets| - 1].key == key {
      k := |sets| - 1;
    } else {
      k := LastSetIsIn(sets[..|sets| - 1], key);
    }
  }

  /** A hit is accounted for by the `set` that it found. */
  lemma HitIsAccounted(c: Config, s: State, r: Request, role: string)
    requires Inv(c, s) && Guarded(c, r) && HasUser(r) && Lookup(s.items, KeyOf(c, r), s.clock) == Some(role)
    ensures Accounted(c, s, Served(r, role, FromCache(|s.sets|), s.clock))
  {
    var key := KeyOf(c, r);
    LookupScans(s.items, s.sets, key, s.clock);
    var k := LastSetIsIn(s.sets, key);
    assert SetInv(s, s.sets[k]);
    var a :| 0 <= a < |s.answers| && s.answers[a].key == key && s.answers[a].role == role && s.answers[a].at <= s.sets[k].at;
    assert Vouched(s.answers, key, role, s.clock);
    assert s.sets[..|s.sets|] == s.sets;
  }

  lemma GotoKeeps(c: Config, s: State, i: nat, phase: Phase)
    requires Inv(c, s) && i < |s.requests| && PhaseInv(c, s, s.requests[i].(phase := phase))
    ensures Inv(c, Goto(s, i, phase))
  {
    HistoryGrows(c, s, Goto(s, i, phase));
    PhaseGrows(c, s, Goto(s, i, phase), s.requests[i].(phase := phase));
  }

  lemma PassOnKeeps(c: Config, s: State, i: nat, role: string, source: Source)
    requires Inv(c, s) && i < |s.requests|
    requires Accounted(c, s, Served(s.requests[i].request, role, source, s.clock))
    ensures Inv(c, PassOn(s, i, role, source))
  {
    var v := Served(s.requests[i].request, role, source, s.clock);
    var s' := s.(served := s.served + [v]);
    HistoryGrows(c, s, s');
    AccountedGrows(c, s, s', v);
    assert forall w :: w in s'.served ==> w in s.served || w == v;
    assert Inv(c, s');
    assert v in s'.served;
    GotoKeeps(c, s', i, Serving(role, source, s.clock));
  }

  lemma ArrivedKeeps(c: Config, s: State, i: nat, reply: Reply)
    requires Inv(c, s) && i < |s.requests| && s.requests[i].phase.Arrived?
    ensures Inv(c, StepRequest(c, s, i, reply))
  {
    var r := s.requests[i].request;
    if !Guarded(c, r) {
      PassOnKeeps(c, s, i, "", Public);
    } else if !HasUser(r) {
      GotoKeeps(c, s, i, Finished);
    } else {
      match Lookup(s.items, KeyOf(c, r), s.clock)
      case Some(role) =>
        HitIsAccounted(c, s, r, role);
        PassOnKeeps(c, s, i, role, FromCache(|s.sets|));
      case None =>
        GotoKeeps(c, s, i, Asking);
    }
  }

  lemma AskingKeeps(c: Config, s: State, i: nat, reply: Reply)
    requires Inv(c, s) && i < |s.requests| && s.requests[i].phase.Asking?
    ensures Inv(c, StepRequest(c, s, i, reply))
  {
    var r := s.requests[i].request;
    assert PhaseInv(c, s, s.requests[i]);
    if reply.Granted? {
      var s' := s.(answers := s.answers + [Answer(KeyOf(c, r), reply.role, s.clock)]);
      HistoryGrows(c, s, s');
      assert Inv(c, s');
      GotoKeeps(c, s', i, Answered(reply.role, |s.answers|));
    } else {
      GotoKeeps(c, s, i, Finished);
    }
  }

  lemma AnsweredKeeps(c: Config, s: State, i: nat, reply: Reply)
    requires Inv(c, s) && i < |s.requests| && s.requests[i].phase.Answered?
    ensures Inv(c, StepRequest(c, s, i, reply))
  {
    var r := s.requests[i].request;
    assert PhaseInv(c, s, s.requests[i]);
    var Answered(role, answer) := s.requests[i].phase;
    var key := KeyOf(c, r);
    var record := SetRecord(key, role, s.clock);
    var s' := s.(items := Insert(s.items, key, role, s.clock), sets := s.sets + [record]);
    InsertHolds(s.items, s.sets, key, role, s.clock);
    HistoryGrows(c, s, s');
    assert s.answers[answer].at <= s.clock;
    assert SetInv(s', record);
    assert Inv(c, s');
    PassOnKeeps(c, s', i, role, FromHelper(answer));
  }

  lemma ServingKeeps(c: Config, s: State, i: nat, reply: Reply)
    requires Inv(c, s) && i < |s.requests| && s.requests[i].phase.Serving?
    ensures Inv(c, StepRequest(c, s, i, reply))
  {
    var r := s.requests[i].request;
    assert PhaseInv(c, s, s.requests[i]);
    match Sends(r, s.requests[i].phase.role, c.socket)
    case Some(op) =>
      var x := Sent(r, op);
      var s' := s.(sent := s.sent + [x]);
      HistoryGrows(c, s, s');
      assert SentInv(c, s', x);
      assert forall y :: y in s'.sent ==> y in s.sent || y == x;
      assert Inv(c, s');
      GotoKeeps(c, s', i, Finished);
    case None =>
      GotoKeeps(c, s, i, Finished);
  }

  lemma ApplyKeepsInv(c: Config, s: State, a: Action)
    requires Inv(c, s)
    ensures Inv(c, Apply(c, s, a))
  {
    match a
    case Tick(d) =>
      HistoryGrows(c, s, Apply(c, s, a));
    case New(r) =>
      HistoryGrows(c, s, Apply(c, s, a));
    case Run(i, reply) =>
      if i < |s.requests| {
        match s.requests[i].phase
        case Arrived => ArrivedKeeps(c, s, i, reply);
        case Asking => AskingKeeps(c, s, i, reply);
        case Answered(_, _) => AnsweredKeeps(c, s, i, reply);
        case Serving(_, _, _) => ServingKeeps(c, s, i, reply);
        case Finished =>
      }
  }

  lemma {:induction false} ExecKeepsInv(c: Config, clock: Time, acts: seq<Action>)
    ensures Inv(c, Exec(c, Init(clock), acts))
    decreases |acts|
  {
    if acts != [] {
      var before := acts[..|acts| - 1];
      ExecKeepsInv(c, clock, before);
      ApplyKeepsInv(c, Exec(c, Init(clock), before), acts[|acts| - 1]);
    }
  }

  // ----- In every run

  /**
   Every request passed on needed no credentials, because there is no socket or it is the liveness
   probe, and then carries no role, or has a user to whom the helper has given the role it carries.
   */
  lemma ServedExactlyAs(c: Config, clock: Time, acts: seq<Action>, v: Served)
    requires v in Exec(c, Init(clock), acts).served
    ensures
      var answers := Exec(c, Init(clock), acts).answers;
      if c.socket == "" || v.request.path == "/healthz" then v.role == ""
      else
        match v.request.credentials
        case None => false
        case Some((user, password)) =>
          && user != ""
          && (exists k: nat :: k < |answers| && answers[k].at <= v.at
                && answers[k].key == user + ":" + c.digest(password) && answers[k].role == v.role)
  {
    RolesAreVouched(c, clock, acts, v);
  }

  /** A guarded request passed on carries a role that the helper gave for its own key, at that time or before. */
  lemma RolesAreVouched(c: Config, clock: Time, acts: seq<Action>, v: Served)
    requires v in Exec(c, Init(clock), acts).served
    ensures !Guarded(c, v.request) ==> v.role == ""
    ensures Guarded(c, v.request) ==>
      HasUser(v.request) && Vouched(Exec(c, Init(clock), acts).answers, KeyOf(c, v.request), v.role, v.at)
  {
    ExecKeepsInv(c, clock, acts);
  }

  /** A hit carries the role of the latest `set` of its key before the lookup, at most five minutes old. */
  lemma HitsAreRecent(c: Config, clock: Time, acts: seq<Action>, v: Served)
    requires v in Exec(c, Init(clock), acts).served && v.source.FromCache?
    ensures
      var s := Exec(c, Init(clock), acts);
      && Guarded(c, v.request) && HasUser(v.request) && v.source.sets <= |s.sets|
      && match LastSet(s.sets[..v.source.sets], KeyOf(c, v.request))
         case Some(r) => v.role == r.role && v.at - r.at <= CACHE_TTL
         case None => false
  {
    ExecKeepsInv(c, clock, acts);
  }

  /** The cache is what its `set`s made of it, and each of those puts in a role that the helper gave: no denial or error does. */
  lemma CacheHoldsOnlyAnswers(c: Config, clock: Time, acts: seq<Action>, key: string)
    ensures
      var s := Exec(c, Init(clock), acts);
      && (forall now :: Lookup(s.items, key, now) == Scan(s.sets, key, now))
      && (key in s.items ==> Vouched(s.answers, key, s.items[key].role, s.items[key].expires - CACHE_TTL))
  {
    ExecKeepsInv(c, clock, acts);
    var s := Exec(c, Init(clock), acts);
    forall now ensures Lookup(s.items, key, now) == Scan(s.sets, key, now) {
      LookupScans(s.items, s.sets, key, now);
    }
    if key in s.items {
      var k := LastSetIsIn(s.sets, key);
      assert SetInv(s, s.sets[k]);
    }
  }

  /** Where the role of a guarded request came from: an answer to itself, or a `set` of its key that had not expired. */
  ghost predicate Backed(c: Config, s: State, v: Served)
    requires HasUser(v.request)
  {
    var key := KeyOf(c, v.request);
    match v.source
    case Public => false
    case FromHelper(k) =>
      k < |s.answers| && s.answers[k].key == key && s.answers[k].role == v.role && s.answers[k].at <= v.at
    case FromCache(n) =>
      && n <= |s.sets|
      && match LastSet(s.sets[..n], key)
         case Some(r) => r.role == v.role && v.at - r.at <= CACHE_TTL && Vouched(s.answers, key, v.role, r.at)
         case None => false
  }

  lemma AccountedIsBacked(c: Config, s: State, v: Served)
    requires Inv(c, s) && Accounted(c, s, v) && Guarded(c, v.request)
    ensures Backed(c, s, v)
  {
    if v.source.FromCache? {
      var k := LastSetIsIn(s.sets[..v.source.sets], KeyOf(c, v.request));
      assert SetInv(s, s.sets[k]);
    }
  }

  /**
   Every operation sent to the helper is the one its request asks for. That request was guarded, and was
   passed on as "admin" by an answer to itself, or by a `set` of its key no older than five minutes that
   had an answer behind it. Without a socket none is sent.
   */
  lemma OperationsAreAuthorized(c: Config, clock: Time, acts: seq<Action>, x: Sent)
    requires x in Exec(c, Init(clock), acts).sent
    ensures
      var s := Exec(c, Init(clock), acts);
      && c.socket != "" && Guarded(c, x.request) && HasUser(x.request)
      && x.request.path != "/healthz" && Asks(x.request, x.op)
      && Allowed(RouteOf(x.request.path), x.request.verb) && Wanted(x.request) == Some(x.op)
      && Vouched(s.answers, KeyOf(c, x.request), "admin", s.clock)
      && exists v :: v in s.served && v.request == x.request && v.role == "admin" && v.at <= s.clock && Backed(c, s, v)
  {
    ExecKeepsInv(c, clock, acts);
    var s := Exec(c, Init(clock), acts);
    assert SentInv(c, s, x);
    var v :| v in s.served && v.request == x.request && Sends(x.request, v.role, c.socket) == Some(x.op);
    assert Accounted(c, s, v);
    SendsExactlyWhen(x.request, v.role, c.socket, Done);
    SendsWhatIsAsked(x.request, v.role, c.socket, x.op);
    assert Guarded(c, x.request);
    assert Vouched(s.answers, KeyOf(c, x.request), "admin", v.at);
    AccountedIsBacked(c, s, v);
  }

  // ----- One request of many, taken by itself

  /**
   The steps of request `i` up to its verdict while no other takes any: the lookup, after `asking` the
   helper's reply, after `setting` the `set`.
   */
  function Alone(c: Config, s: State, i: nat, reply: Reply, asking: nat, setting: nat): seq<Action>
    requires i < |s.requests|
  {
    var looked := Apply(c, s, Run(i, reply));
    if !looked.requests[i].phase.Asking? then [Run(i, reply)]
    else if !reply.Granted? then [Run(i, reply), Tick(asking), Run(i, reply)]
    else [Run(i, reply), Tick(asking), Run(i, reply), Tick(setting), Run(i, reply)]
  }

  lemma ExecMore(c: Config, s: State, acts: seq<Action>, a: Action)
    ensures Exec(c, s, acts + [a]) == Apply(c, Exec(c, s, acts), a)
  {
    assert (acts + [a])[..|acts|] == acts;
  }

  lemma ExecFive(c: Config, s: State, a: Action, b: Action, d: Action, e: Action, f: Action)
    ensures Exec(c, s, [a]) == Apply(c, s, a)
    ensures Exec(c, s, [a, b, d]) == Apply(c, Apply(c, Apply(c, s, a), b), d)
    ensures Exec(c, s, [a, b, d, e, f]) == Apply(c, Apply(c, Exec(c, s, [a, b, d]), e), f)
  {
    ExecMore(c, s, [], a);
    ExecMore(c, s, [a], b);
    ExecMore(c, s, [a, b], d);
    ExecMore(c, s, [a, b, d], e);
    ExecMore(c, s, [a, b, d, e], f);
    assert [] + [a] == [a] && [a] + [b] == [a, b] && [a, b] + [d] == [a, b, d];
    assert [a, b, d] + [e] == [a, b, d, e] && [a, b, d, e] + [f] == [a, b, d, e, f];
  }

  /** Only request `i` has moved, and nothing was sent. */
  predicate OnlyMoved(s: State, s': State, i: nat)
    requires i < |s.requests|
  {
    && |s'.requests| == |s.requests| && s'.requests[i].request == s.requests[i].request
    && (forall j :: 0 <= j < |s.requests| && j != i ==> s'.requests[j] == s.requests[j])
    && s'.sent == s.sent
  }

  /** What a verdict means for the request in the state machine. */
  predicate Reached(s: State, s': State, i: nat, v: Verdict)
    requires i < |s.requests|
  {
    OnlyMoved(s, s', i) &&
    match v
    case Pass(role) => s'.requests[i].phase.Serving? && s'.requests[i].phase.role == role
    case Reject(_) => s'.requests[i].phase.Finished? && s'.served == s.served
  }

  lemma LookupStep(c: Config, s: State, i: nat, reply: Reply, setAt: Time)
    requires Holds(s.items, s.sets) && i < |s.requests| && s.requests[i].phase == Arrived
    ensures
      var r := s.requests[i].request;
      var s' := StepRequest(c, s, i, reply);
      && s'.sets == s.sets && s'.clock == s.clock && OnlyMoved(s, s', i)
      && if s'.requests[i].phase.Asking? then
           s' == Goto(s, i, Asking) && Guarded(c, r) && HasUser(r) && Scan(s.sets, KeyOf(c, r), s.clock) == None
         else
           && Reached(s, s', i, VerdictOf(c, s.sets, r, s.clock, reply))
           && SetsAfter(c, s.sets, r, s.clock, reply, setAt) == s.sets
  {
    var r := s.requests[i].request;
    if HasUser(r) {
      LookupScans(s.items, s.sets, KeyOf(c, r), s.clock);
    }
  }

  lemma ReplyStep(c: Config, s: State, i: nat, reply: Reply)
    requires i < |s.requests| && s.requests[i].phase == Asking && HasUser(s.requests[i].request)
    ensures
      var s' := StepRequest(c, s, i, reply);
      && s'.sets == s.sets && s'.clock == s.clock && OnlyMoved(s, s', i)
      && if reply.Granted? then s'.requests[i].phase == Answered(reply.role, |s.answers|)
         else s'.requests[i].phase == Finished && s'.served == s.served
  {
  }

  lemma SetStep(c: Config, s: State, i: nat, reply: Reply)
    requires i < |s.requests| && s.requests[i].phase.Answered? && HasUser(s.requests[i].request)
    ensures
      var role := s.requests[i].phase.role;
      var s' := StepRequest(c, s, i, reply);
      && OnlyMoved(s, s', i) && s'.requests[i].phase.Serving? && s'.requests[i].phase.role == role
      && s'.sets == s.sets + [SetRecord(KeyOf(c, s.requests[i].request), role, s.clock)]
  {
  }

  /** The steps of a request that missed: the reply, and the `set` if it was granted. */
  function Asked(c: Config, s: State, i: nat, reply: Reply, asking: nat, setting: nat): (s': State)
    requires i < |s.requests|
  {
    var replied := Apply(c, Apply(c, s, Tick(asking)), Run(i, reply));
    if reply.Granted? then Apply(c, Apply(c, replied, Tick(setting)), Run(i, reply)) else replied
  }

  lemma AskedReaches(c: Config, s: State, i: nat, reply: Reply, asking: nat, setting: nat)
    requires i < |s.requests| && s.requests[i].phase == Asking && HasUser(s.requests[i].request)
    ensures
      var s' := Asked(c, s, i, reply, asking, setting);
      && Reached(s, s', i, VerdictOn(reply))
      && s'.sets ==
           if reply.Granted?
           then s.sets + [SetRecord(KeyOf(c, s.requests[i].request), reply.role, s.clock + asking + setting)]
           else s.sets
  {
    var asked := Apply(c, s, Tick(asking));
    ReplyStep(c, asked, i, reply);
    if reply.Granted? {
      SetStep(c, Apply(c, StepRequest(c, asked, i, reply), Tick(setting)), i, reply);
    }
  }

  /** The middleware's steps, run one after the other. */
  function Stepped(c: Config, s: State, i: nat, reply: Reply, asking: nat, setting: nat): (s': State)
    requires i < |s.requests|
  {
    var looked := Apply(c, s, Run(i, reply));
    if looked.requests[i].phase.Asking? then Asked(c, looked, i, reply, asking, setting) else looked
  }

  lemma AloneIsStepped(c: Config, s: State, i: nat, reply: Reply, asking: nat, setting: nat)
    requires i < |s.requests|
    ensures Exec(c, s, Alone(c, s, i, reply, asking, setting)) == Stepped(c, s, i, reply, asking, setting)
  {
    var step := Run(i, reply);
    ExecFive(c, s, step, Tick(asking), step, Tick(setting), step);
  }

  /**
   Taken alone, the steps of a request end as `Authenticate` does: it is passed on with the role of the
   verdict or not at all, and the cache has the same `set`s.
   */
  lemma StepsAreAuthenticate(c: Config, s: State, i: nat, reply: Reply, asking: nat, setting: nat)
    requires Holds(s.items, s.sets) && i < |s.requests| && s.requests[i].phase == Arrived
    ensures
      var s' := Exec(c, s, Alone(c, s, i, reply, asking, setting));
      && Reached(s, s', i, VerdictOf(c, s.sets, s.requests[i].request, s.clock, reply))
      && s'.sets == SetsAfter(c, s.sets, s.requests[i].request, s.clock, reply, s.clock + asking + setting)
  {
    AloneIsStepped(c, s, i, reply, asking, setting);
    LookupStep(c, s, i, reply, s.clock + asking + setting);
    var looked := StepRequest(c, s, i, reply);
    if looked.requests[i].phase.Asking? {
      AskedReaches(c, looked, i, reply, asking, setting);
    }
  }
}
