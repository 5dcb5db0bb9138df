/** The request multiplexer of remote.Client: any number of concurrent calls,
    cancellations, write errors, a reader delivering whatever arrives, and the
    end of the connection, in every interleaving.  mu is the client's mutex;
    every channel has room for one response. */
module Multiplexer {
  import opened Common

  datatype Body = Answer(text: int) | ConnectionClosed

  datatype Response = Response(id: int, body: Body)

  datatype Result = Got(response: Response) | Rejected | SendError | Cancelled

  /** Where a call is: waiting for mu, inside it, writing its request, waiting
      for its channel, or giving up and taking its id out of pending. */
  datatype CallAt =
    | Entering | Checking | Writing | Waiting
    | GivingUp(why: Result) | Dropping(why: Result)
    | Returned(result: Result)

  /** One call with its id (0 before it has one) and its channel: what is in
      the slot, and how often it was sent to. */
  datatype Call = Call(at: CallAt, id: int, slot: Option<Response>, sends: nat)

  datatype ReaderAt =
    | Scanning | WantTake(response: Response) | Taking(response: Response)
    | Delivering(call: int, response: Response)
    | WantEnd | Ending | Ended

  datatype Mutex = Free | HeldByCall(call: int) | HeldByReader

  /** arrived collects every response the connection ever delivered. */
  datatype State = State(mu: Mutex, nextID: int, pending: map<int, int>, closed: bool, readErr: bool,
                         calls: map<int, Call>, reader: ReaderAt, arrived: set<Response>)

  predicate Init(s: State) {
    && s.mu == Free && s.nextID == 0 && s.pending == map[] && !s.closed && !s.readErr
    && s.calls == map[] && s.reader == Scanning && s.arrived == {}
  }

  // ---- steps of a call --------------------------------------------------------------

  function With(s: State, c: int, k: Call): State {
    s.(calls := s.calls[c := k])
  }

  predicate Begin(s: State, c: int, t: State) {
    c !in s.calls && t == With(s, c, Call(Entering, 0, None, 0))
  }

  predicate CallStep(s: State, c: int, t: State) {
    c in s.calls &&
    var k := s.calls[c];
    match k.at
    case Entering => s.mu == Free && t == With(s, c, k.(at := Checking)).(mu := HeldByCall(c))
    case Checking =>
      if s.closed || s.readErr then t == With(s, c, k.(at := Returned(Rejected))).(mu := Free)
      else
        var id := s.nextID + 1;
        t == With(s, c, k.(at := Writing, id := id)).(mu := Free, nextID := id, pending := s.pending[id := c])
    case Writing => t == With(s, c, k.(at := Waiting)) || t == With(s, c, k.(at := GivingUp(SendError)))
    case Waiting =>
      || (k.slot.Some? && t == With(s, c, k.(at := Returned(Got(k.slot.value)), slot := None)))
      || t == With(s, c, k.(at := GivingUp(Cancelled)))
    case GivingUp(why) => s.mu == Free && t == With(s, c, k.(at := Dropping(why))).(mu := HeldByCall(c))
    case Dropping(why) => t == With(s, c, k.(at := Returned(why))).(mu := Free, pending := s.pending - {k.id})
    case Returned(_) => false
  }

  // ---- steps of the reader -------------------------------------------------------------

  /** Sending to c's channel needs an empty slot; with a full one it blocks. */
  predicate SendTo(s: State, c: int, r: Response, t: State) {
    && c in s.calls && s.calls[c].slot.None?
    && t == With(s, c, s.calls[c].(slot := Some(r), sends := s.calls[c].sends + 1))
  }

  predicate NonePending(s: State) {
    forall id :: id in s.pending ==> false
  }

  predicate ReaderStep(s: State, t: State) {
    match s.reader
    case Scanning =>
      || t == s.(reader := WantEnd)
      || (t.reader.WantTake? && t == s.(reader := t.reader, arrived := s.arrived + {t.reader.response}))
    case WantTake(r) => s.mu == Free && t == s.(mu := HeldByReader, reader := Taking(r))
    case Taking(r) =>
      if r.id in s.pending then
        t == s.(mu := Free, reader := Delivering(s.pending[r.id], r), pending := s.pending - {r.id})
      else t == s.(mu := Free, reader := Scanning)
    case Delivering(c, r) => SendTo(s.(reader := Scanning), c, r, t)
    case WantEnd => s.mu == Free && t == s.(mu := HeldByReader, reader := Ending, readErr := true)
    case Ending =>
      if NonePending(s) then t == s.(mu := Free, reader := Ended)
      else exists id :: id in s.pending && Fail(s, id, t)
    case Ended => false
  }

  /** Still under the lock: one pending call is told the connection closed. */
  predicate Fail(s: State, id: int, t: State)
    requires id in s.pending
  {
    SendTo(s.(pending := s.pending - {id}), s.pending[id], Response(id, ConnectionClosed), t)
  }

  predicate Close(s: State, t: State) {
    s.mu == Free && t == s.(closed := true)
  }

  datatype Actor = NewCall(call: int) | OldCall(call: int) | Reader | Closer

  predicate Next(s: State, a: Actor, t: State) {
    match a
    case NewCall(c) => Begin(s, c, t)
    case OldCall(c) => CallStep(s, c, t)
    case Reader => ReaderStep(s, t)
    case Closer => Close(s, t)
  }

  // ---- the invariant ---------------------------------------------------------------------

  /** Registered and not yet answered: somebody still owes it a response. */
  predicate Registered(k: Call) {
    k.at.Writing? || k.at.Waiting? || k.at.GivingUp? || k.at.Dropping?
  }

  /** A response with this id: one that arrived, or the notice that the
      connection closed. */
  predicate IsFor(s: State, r: Response, id: int) {
    r.id == id && (r in s.arrived || r.body == ConnectionClosed)
  }

  predicate BeingDelivered(s: State, c: int) {
    s.reader.Delivering? && s.reader.call == c
  }

  predicate CallInv(s: State, c: int, k: Call) {
    && (k.at.Entering? || k.at.Checking? ==> k.id == 0)
    && (Registered(k) ==> k.id > 0)
    && 0 <= k.id <= s.nextID
    && (k.id == 0 ==> k.sends == 0)
    && k.sends <= 1 && (k.slot.Some? ==> k.sends == 1 && IsFor(s, k.slot.value, k.id))
    && (k.id in s.pending || BeingDelivered(s, c) ==> k.sends == 0)
    && (Registered(k) ==> k.id in s.pending || BeingDelivered(s, c) || k.slot.Some?)
    && (k.at.Returned? && k.at.result.Got? ==> IsFor(s, k.at.result.response, k.id))
    && (k.at.Checking? || k.at.Dropping? <==> s.mu == HeldByCall(c))
    && (k.at.GivingUp? || k.at.Dropping? ==> k.at.why.SendError? || k.at.why.Cancelled?)
    && (k.at.Returned? && k.at.result.Rejected? ==> s.closed || s.readErr)
  }

  predicate CallsInv(s: State) {
    forall c :: c in s.calls ==> CallInv(s, c, s.calls[c])
  }

  predicate DistinctIds(calls: map<int, Call>) {
    forall c, d :: c in calls && d in calls && c != d && calls[c].id != 0 ==> calls[c].id != calls[d].id
  }

  /** Every pending id leads to the call that has it. */
  predicate PendingInv(pending: map<int, int>, calls: map<int, Call>) {
    forall id :: id in pending ==> 0 < id && pending[id] in calls && calls[pending[id]].id == id
  }

  predicate ActorsInv(s: State) {
    && (s.mu == HeldByReader <==> s.reader.Taking? || s.reader.Ending?)
    && (s.mu.HeldByCall? ==> s.mu.call in s.calls)
    && (s.reader.Delivering? ==>
          && s.reader.call in s.calls && s.calls[s.reader.call].id == s.reader.response.id > 0
          && s.reader.response.id !in s.pending)
    && (s.reader.WantTake? || s.reader.Taking? || s.reader.Delivering? ==> s.reader.response in s.arrived)
    && (s.readErr <==> s.reader.Ending? || s.reader.Ended?)
    && (s.reader.Ended? ==> NonePending(s))
    && 0 <= s.nextID
  }

  predicate Inv(s: State) {
    CallsInv(s) && DistinctIds(s.calls) && PendingInv(s.pending, s.calls) && ActorsInv(s)
  }

  /** Replacing a call by one with the same id. */
  lemma SameIdKept(calls: map<int, Call>, pending: map<int, int>, c: int, k: Call)
    requires c in calls && k.id == calls[c].id && DistinctIds(calls) && PendingInv(pending, calls)
    ensures DistinctIds(calls[c := k]) && PendingInv(pending, calls[c := k])
  {
  }

  lemma InitInv(s: State)
    requires Init(s)
    ensures Inv(s)
  {
  }

  lemma BeginKeeps(s: State, c: int, t: State)
    requires Inv(s) && Begin(s, c, t)
    ensures Inv(t)
  {
    forall d | d in t.calls ensures CallInv(t, d, t.calls[d]) {
      if d != c {
        assert CallInv(s, d, s.calls[d]);
      }
    }
  }

  lemma RegisterKeeps(s: State, c: int, t: State)
    requires Inv(s) && CallStep(s, c, t) && s.calls[c].at.Checking? && !s.closed && !s.readErr
    ensures Inv(t)
  {
    assert CallInv(s, c, s.calls[c]);
    forall d | d in t.calls ensures CallInv(t, d, t.calls[d]) {
      assert CallInv(s, d, s.calls[d]);
    }
  }

  lemma DropKeeps(s: State, c: int, t: State)
    requires Inv(s) && CallStep(s, c, t) && s.calls[c].at.Dropping?
    ensures Inv(t)
  {
    assert CallInv(s, c, s.calls[c]);
    forall d | d in t.calls ensures CallInv(t, d, t.calls[d]) {
      assert CallInv(s, d, s.calls[d]);
    }
  }

  /** A call that moves on with its id, taking or dropping mu at most. */
  lemma MoveKeeps(s: State, c: int, k: Call, mu: Mutex)
    requires Inv(s) && c in s.calls && k.id == s.calls[c].id
    requires mu == s.mu || ({mu, s.mu} == {Free, HeldByCall(c)})
    requires CallInv(With(s, c, k).(mu := mu), c, k)
    ensures Inv(With(s, c, k).(mu := mu))
  {
    var t := With(s, c, k).(mu := mu);
    SameIdKept(s.calls, s.pending, c, k);
    forall d | d in t.calls ensures CallInv(t, d, t.calls[d]) {
      assert CallInv(s, d, s.calls[d]);
    }
  }

  lemma CallKeeps(s: State, c: int, t: State)
    requires Inv(s) && CallStep(s, c, t)
    ensures Inv(t)
  {
    var k := s.calls[c];
    assert CallInv(s, c, k);
    match k.at {
      case Entering => MoveKeeps(s, c, k.(at := Checking), HeldByCall(c));
      case Checking =>
        if s.closed || s.readErr {
          MoveKeeps(s, c, k.(at := Returned(Rejected)), Free);
        } else {
          RegisterKeeps(s, c, t);
        }
      case Writing =>
        MoveKeeps(s, c, k.(at := Waiting), s.mu);
        MoveKeeps(s, c, k.(at := GivingUp(SendError)), s.mu);
      case Waiting =>
        if k.slot.Some? {
          MoveKeeps(s, c, k.(at := Returned(Got(k.slot.value)), slot := None), s.mu);
        }
        MoveKeeps(s, c, k.(at := GivingUp(Cancelled)), s.mu);
      case GivingUp(why) => MoveKeeps(s, c, k.(at := Dropping(why)), HeldByCall(c));
      case Dropping(_) => DropKeeps(s, c, t);
      case Returned(_) =>
    }
  }

  lemma SendKeeps(s: State, c: int, t: State)
    requires Inv(s) && s.reader.Delivering? && ReaderStep(s, t)
    ensures Inv(t)
  {
    forall d | d in t.calls ensures CallInv(t, d, t.calls[d]) {
      assert CallInv(s, d, s.calls[d]);
    }
  }

  lemma FailKeeps(s: State, id: int, t: State)
    requires Inv(s) && s.reader.Ending? && id in s.pending && Fail(s, id, t)
    ensures Inv(t)
  {
    forall d | d in t.calls ensures CallInv(t, d, t.calls[d]) {
      assert CallInv(s, d, s.calls[d]);
    }
  }

  lemma TakeKeeps(s: State, t: State)
    requires Inv(s) && ReaderStep(s, t) && s.reader.Taking?
    ensures Inv(t)
  {
    forall d | d in t.calls ensures CallInv(t, d, t.calls[d]) {
      assert CallInv(s, d, s.calls[d]);
    }
  }

  lemma ReaderKeeps(s: State, t: State)
    requires Inv(s) && ReaderStep(s, t)
    ensures Inv(t)
  {
    if s.reader.Ending? && !NonePending(s) {
      var id :| id in s.pending && Fail(s, id, t);
      FailKeeps(s, id, t);
    } else if s.reader.Delivering? {
      SendKeeps(s, s.reader.call, t);
    } else if s.reader.Taking? {
      TakeKeeps(s, t);
    } else {
      forall d | d in t.calls ensures CallInv(t, d, t.calls[d]) {
        assert CallInv(s, d, s.calls[d]);
      }
    }
  }

  lemma CloseKeeps(s: State, t: State)
    requires Inv(s) && Close(s, t)
    ensures Inv(t)
  {
    forall d | d in t.calls ensures CallInv(t, d, t.calls[d]) {
      assert CallInv(s, d, s.calls[d]);
    }
  }

  lemma NextKeeps(s: State, a: Actor, t: State)
    requires Inv(s) && Next(s, a, t)
    ensures Inv(t)
  {
    match a {
      case NewCall(c) => BeginKeeps(s, c, t);
      case OldCall(c) => CallKeeps(s, c, t);
      case Reader => ReaderKeeps(s, t);
      case Closer => CloseKeeps(s, t);
    }
  }

  // ---- runs --------------------------------------------------------------------------------

  ghost predicate IsRun(run: seq<State>, actors: seq<Actor>) {
    && |run| == |actors| + 1 && Init(run[0])
    && forall i :: 0 <= i < |actors| ==> Next(run[i], actors[i], run[i + 1])
  }

  lemma {:induction false} RunInv(run: seq<State>, actors: seq<Actor>, i: nat)
    requires IsRun(run, actors) && i < |run|
    ensures Inv(run[i])
  {
    if i == 0 {
      InitInv(run[0]);
    } else {
      RunInv(run, actors, i - 1);
      NextKeeps(run[i - 1], actors[i - 1], run[i]);
    }
  }

  /** Whatever a call returns was sent to its own id, and its channel was sent
      to at most once. */
  lemma OnlyOwnResponse(run: seq<State>, actors: seq<Actor>, i: nat, c: int)
    requires IsRun(run, actors) && i < |run| && c in run[i].calls
    ensures var k := run[i].calls[c];
            && k.sends <= 1
            && (k.at.Returned? && k.at.result.Got? ==> IsFor(run[i], k.at.result.response, k.id))
  {
    RunInv(run, actors, i);
    assert CallInv(run[i], c, run[i].calls[c]);
  }

  /** No two calls ever share an id, so no response has two receivers. */
  lemma IdsAreUnique(run: seq<State>, actors: seq<Actor>, i: nat, c: int, d: int)
    requires IsRun(run, actors) && i < |run| && c in run[i].calls && d in run[i].calls && c != d
    requires run[i].calls[c].id != 0
    ensures run[i].calls[c].id != run[i].calls[d].id
  {
    RunInv(run, actors, i);
  }

  // ---- sends never block ----------------------------------------------------------------------

  /** Steps the holder still needs before it releases mu. */
  function LockDebt(s: State): nat {
    if s.mu == Free then 0 else if s.mu == HeldByReader && s.reader.Ending? then |s.pending| + 1 else 1
  }

  ghost predicate CanStep(s: State, a: Actor) {
    exists t :: Next(s, a, t) && LockDebt(t) < LockDebt(s)
  }

  lemma HeldLockIsReleased(s: State)
    requires Inv(s) && s.mu != Free
    ensures CanStep(s, if s.mu.HeldByCall? then OldCall(s.mu.call) else Reader)
  {
    if s.mu.HeldByCall? {
      HolderSteps(s, s.mu.call);
    } else if s.reader.Taking? {
      TakerSteps(s);
    } else {
      EnderSteps(s);
    }
  }

  lemma TakerSteps(s: State)
    requires Inv(s) && s.reader.Taking?
    ensures CanStep(s, Reader)
  {
    var r := s.reader.response;
    var t := if r.id in s.pending then
               s.(mu := Free, reader := Delivering(s.pending[r.id], r), pending := s.pending - {r.id})
             else s.(mu := Free, reader := Scanning);
    assert Next(s, Reader, t);
  }

  lemma EndIsStep(s: State)
    requires s.reader.Ending? && NonePending(s) && s.mu == HeldByReader
    ensures CanStep(s, Reader)
  {
    var t := s.(mu := Free, reader := Ended);
    assert Next(s, Reader, t) && LockDebt(t) < LockDebt(s);
  }

  lemma FailIsStep(s: State, id: int, t: State)
    requires s.reader.Ending? && s.mu == HeldByReader && id in s.pending && Fail(s, id, t)
    ensures CanStep(s, Reader)
  {
    hide SendTo;
    assert t.reader == s.reader && t.mu == s.mu && t.pending == s.pending - {id} by {
      FailTakes(s, id, t);
    }
    assert s.pending.Keys == t.pending.Keys + {id};
    assert Next(s, Reader, t) && LockDebt(t) < LockDebt(s);
  }

  lemma FailTakes(s: State, id: int, t: State)
    requires id in s.pending && Fail(s, id, t)
    ensures t.reader == s.reader && t.mu == s.mu && t.pending == s.pending - {id}
  {
  }

  lemma EnderSteps(s: State)
    requires Inv(s) && s.reader.Ending?
    ensures CanStep(s, Reader)
  {
    hide CanStep, LockDebt;
    if NonePending(s) {
      EndIsStep(s);
    } else {
      var id :| id in s.pending;
      var c := s.pending[id];
      var k := s.calls[c];
      assert CallInv(s, c, k);
      hide CallInv;
      var t := With(s.(pending := s.pending - {id}), c,
                    k.(slot := Some(Response(id, ConnectionClosed)), sends := k.sends + 1));
      assert Fail(s, id, t);
      FailIsStep(s, id, t);
    }
  }

  lemma HolderSteps(s: State, c: int)
    requires Inv(s) && s.mu == HeldByCall(c)
    ensures CanStep(s, OldCall(c))
  {
    var k := s.calls[c];
    assert CallInv(s, c, k);
    if k.at.Dropping? {
      var t := With(s, c, k.(at := Returned(k.at.why))).(mu := Free, pending := s.pending - {k.id});
      assert Next(s, OldCall(c), t);
    } else {
      assert k.at.Checking?;
      var id := s.nextID + 1;
      var t := if s.closed || s.readErr then With(s, c, k.(at := Returned(Rejected))).(mu := Free)
               else With(s, c, k.(at := Writing, id := id)).(mu := Free, nextID := id, pending := s.pending[id := c]);
      assert Next(s, OldCall(c), t);
    }
  }

  lemma CallKeepsDebt(s: State, c: int, t: State)
    requires Inv(s) && s.mu != Free && CallStep(s, c, t)
    ensures LockDebt(t) <= LockDebt(s)
  {
    assert CallInv(s, c, s.calls[c]);
  }

  lemma ReaderKeepsDebt(s: State, t: State)
    requires Inv(s) && s.mu != Free && ReaderStep(s, t)
    ensures LockDebt(t) <= LockDebt(s)
  {
    if s.reader.Ending? && !NonePending(s) {
      var id :| id in s.pending && Fail(s, id, t);
      assert s.pending.Keys == t.pending.Keys + {id};
    }
  }

  /** While mu is held nobody else adds to what its holder has to do. */
  lemma OthersKeepDebt(s: State, a: Actor, t: State)
    requires Inv(s) && s.mu != Free && Next(s, a, t)
    ensures LockDebt(t) <= LockDebt(s)
  {
    match a {
      case NewCall(c) =>
      case OldCall(c) => CallKeepsDebt(s, c, t);
      case Reader => ReaderKeepsDebt(s, t);
      case Closer =>
    }
  }

  /** Outside the lock too: the reader always finds room for what it delivers. */
  lemma DeliveryNeverBlocks(s: State)
    requires Inv(s) && s.reader.Delivering?
    ensures exists t :: ReaderStep(s, t)
  {
    var c := s.reader.call;
    var k := s.calls[c];
    assert CallInv(s, c, k);
    var t := With(s.(reader := Scanning), c, k.(slot := Some(s.reader.response), sends := k.sends + 1));
    assert ReaderStep(s, t);
  }

  // ---- every response is delivered --------------------------------------------------------------

  /** The call holds r, returned it, or has given up waiting. */
  predicate Received(k: Call, r: Response) {
    || k.slot == Some(r)
    || (k.at.Returned? && k.at.result == Got(r))
    || k.at.GivingUp? || k.at.Dropping? || (k.at.Returned? && !k.at.result.Got?)
  }

  /** r is on its way to the call c, or there. */
  predicate OnItsWay(s: State, c: int, r: Response) {
    c in s.calls && s.calls[c].id == r.id > 0 &&
    (|| (s.reader == Taking(r) && r.id in s.pending && s.pending[r.id] == c)
     || s.reader == Delivering(c, r)
     || Received(s.calls[c], r))
  }

  /** A waiting call whose response is being taken. */
  predicate TakenFor(s: State, c: int) {
    && s.reader.Taking? && c in s.calls && (s.calls[c].at.Writing? || s.calls[c].at.Waiting?)
    && s.calls[c].slot.None? && s.calls[c].id == s.reader.response.id
  }

  lemma TakenIsOnItsWay(s: State, c: int)
    requires Inv(s) && TakenFor(s, c)
    ensures OnItsWay(s, c, s.reader.response)
  {
    assert CallInv(s, c, s.calls[c]);
  }

  /** A call's step leaves the reader alone, and every call but its own; it
      changes what is pending only when it holds the mutex. */
  lemma CallTouches(s: State, d: int, t: State)
    requires Inv(s) && CallStep(s, d, t)
    ensures t.reader == s.reader && t.calls.Keys == s.calls.Keys
    ensures forall c :: c in s.calls && c != d ==> t.calls[c] == s.calls[c]
    ensures s.mu == HeldByReader ==> t.pending == s.pending
  {
    assert CallInv(s, d, s.calls[d]);
  }

  lemma ReceivedStays(s: State, c: int, t: State, r: Response)
    requires Inv(s) && CallStep(s, c, t)
    ensures t.calls[c].id == s.calls[c].id || s.calls[c].at.Checking?
    ensures Received(s.calls[c], r) ==> Received(t.calls[c], r)
  {
    assert CallInv(s, c, s.calls[c]);
  }

  lemma CallLeavesIt(s: State, d: int, t: State, c: int, r: Response)
    requires Inv(s) && CallStep(s, d, t) && OnItsWay(s, c, r)
    ensures OnItsWay(t, c, r)
  {
    CallTouches(s, d, t);
    assert CallInv(s, c, s.calls[c]);
    assert s.reader == Taking(r) ==> s.mu == HeldByReader;
    hide Inv, CallInv, CallStep, Received;
    if d == c {
      ReceivedStays(s, c, t, r);
    }
  }

  lemma ReaderBringsIt(s: State, t: State, c: int, r: Response)
    requires Inv(s) && ReaderStep(s, t) && OnItsWay(s, c, r)
    ensures OnItsWay(t, c, r)
  {
    assert CallInv(s, c, s.calls[c]);
    hide Inv, CallInv;
    if s.reader.Ending? && !NonePending(s) {
      FailLeavesIt(s, t, c, r);
    }
  }

  lemma FailLeavesIt(s: State, t: State, c: int, r: Response)
    requires Inv(s) && s.reader.Ending? && ReaderStep(s, t) && !NonePending(s) && OnItsWay(s, c, r)
    ensures OnItsWay(t, c, r)
  {
    var id :| id in s.pending && Fail(s, id, t);
    assert CallInv(s, c, s.calls[c]);
    assert s.calls[s.pending[id]].slot.None?;
  }

  lemma StaysOnItsWay(s: State, a: Actor, t: State, c: int, r: Response)
    requires Inv(s) && Next(s, a, t) && OnItsWay(s, c, r)
    ensures OnItsWay(t, c, r)
  {
    hide Inv, CallStep, ReaderStep, OnItsWay;
    match a {
      case NewCall(d) => OtherLeavesIt(s, d, t, c, r);
      case OldCall(d) => CallLeavesIt(s, d, t, c, r);
      case Reader => ReaderBringsIt(s, t, c, r);
      case Closer => CloserLeavesIt(s, t, c, r);
    }
  }

  lemma OtherLeavesIt(s: State, d: int, t: State, c: int, r: Response)
    requires Begin(s, d, t) && OnItsWay(s, c, r)
    ensures OnItsWay(t, c, r)
  {
  }

  lemma CloserLeavesIt(s: State, t: State, c: int, r: Response)
    requires Close(s, t) && OnItsWay(s, c, r)
    ensures OnItsWay(t, c, r)
  {
  }

  lemma {:induction false} RunDelivers(run: seq<State>, actors: seq<Actor>, i: nat, k: nat, c: int)
    requires IsRun(run, actors) && i <= k < |run| && TakenFor(run[i], c)
    ensures OnItsWay(run[k], c, run[i].reader.response)
    decreases k
  {
    if k == i {
      RunInv(run, actors, i);
      TakenIsOnItsWay(run[i], c);
    } else {
      RunDelivers(run, actors, i, k - 1, c);
      RunInv(run, actors, k - 1);
      StaysOnItsWay(run[k - 1], actors[k - 1], run[k], c, run[i].reader.response);
    }
  }

  /** In every run: when the reader has taken the response to a call that waits,
      then once the reader scans again, and ever after, the call holds that
      response, has returned it, or gave up. */
  lemma TakenIsDelivered(run: seq<State>, actors: seq<Actor>, i: nat, k: nat, c: int)
    requires IsRun(run, actors) && i <= k < |run| && TakenFor(run[i], c) && run[k].reader.Scanning?
    ensures c in run[k].calls && Received(run[k].calls[c], run[i].reader.response)
  {
    RunDelivers(run, actors, i, k, c);
  }

  /** Two steps of the reader alone put it into the slot. */
  lemma TwoStepsDeliver(s: State, t: State, u: State, c: int)
    requires Inv(s) && TakenFor(s, c) && ReaderStep(s, t) && ReaderStep(t, u)
    ensures u.reader.Scanning? && u.mu == Free && u.calls == s.calls[c := s.calls[c].(slot := Some(s.reader.response), sends := 1)]
  {
    TakenIsOnItsWay(s, c);
    assert CallInv(s, c, s.calls[c]);
  }

  /** Any response may arrive, and is taken as soon as the mutex is free. */
  lemma AnyResponseArrives(s: State, r: Response)
    requires s.reader.Scanning? && s.mu == Free
    ensures exists t, u :: ReaderStep(s, t) && ReaderStep(t, u) && u.reader == Taking(r) && u.calls == s.calls && u.pending == s.pending
  {
    var t := s.(reader := WantTake(r), arrived := s.arrived + {r});
    var u := t.(mu := HeldByReader, reader := Taking(r));
    assert ReaderStep(s, t) && ReaderStep(t, u);
  }

  /** A waiting call that holds a response can return it, whatever else goes on. */
  lemma HeldIsReturned(s: State, c: int)
    requires c in s.calls && s.calls[c].at.Waiting? && s.calls[c].slot.Some?
    ensures exists t :: CallStep(s, c, t) && t.calls[c].at == Returned(Got(s.calls[c].slot.value))
  {
    var k := s.calls[c];
    assert CallStep(s, c, With(s, c, k.(at := Returned(Got(k.slot.value)), slot := None)));
  }

  /** A call on a live connection registers under a new id, and only a closed
      or ended one turns it away. */
  lemma CallRegisters(s: State, c: int, t: State)
    requires Inv(s) && c in s.calls && s.calls[c].at.Checking? && CallStep(s, c, t)
    ensures if s.closed || s.readErr then t.calls[c].at == Returned(Rejected) && t.pending == s.pending
            else
              var id := t.calls[c].id;
              t.calls[c].at.Writing? && id !in s.pending && t.pending == s.pending[id := c] && forall d :: d in s.calls ==> s.calls[d].id < id
  {
    assert forall d :: d in s.calls ==> CallInv(s, d, s.calls[d]);
    if s.nextID + 1 in s.pending {
      assert CallInv(s, s.pending[s.nextID + 1], s.calls[s.pending[s.nextID + 1]]);
    }
  }

  /** Only a closed or ended connection turns a call away. */
  lemma RejectedIsClosed(run: seq<State>, actors: seq<Actor>, i: nat, c: int)
    requires IsRun(run, actors) && i < |run| && c in run[i].calls && run[i].calls[c].at == Returned(Rejected)
    ensures run[i].closed || run[i].readErr
  {
    RunInv(run, actors, i);
    assert CallInv(run[i], c, run[i].calls[c]);
  }

  // ---- no lost wakeup ----------------------------------------------------------------------------

  /** When the read loop has ended, every call that waits has something to
      receive, and a call still to register will be turned away. */
  lemma NoLostWakeup(run: seq<State>, actors: seq<Actor>, i: nat, c: int)
    requires IsRun(run, actors) && i < |run| && run[i].reader.Ended? && c in run[i].calls
    ensures var k := run[i].calls[c];
            && (k.at.Waiting? ==> k.slot.Some?)
            && (forall t :: k.at.Checking? && CallStep(run[i], c, t) ==> t.calls[c].at == Returned(Rejected))
  {
    RunInv(run, actors, i);
    assert CallInv(run[i], c, run[i].calls[c]);
  }

  function Rank(at: CallAt): nat {
    match at
    case Entering => 6
    case Checking => 5
    case Writing => 4
    case Waiting => 3
    case GivingUp(_) => 2
    case Dropping(_) => 1
    case Returned(_) => 0
  }

  /** So every call comes back: each of its steps brings it nearer, and after
      the end of the connection it can step whenever mu is not someone else's. */
  lemma CallsAdvance(s: State, c: int, t: State)
    requires CallStep(s, c, t)
    ensures Rank(t.calls[c].at) < Rank(s.calls[c].at)
  {
  }

  lemma CallsReturn(s: State, c: int)
    requires Inv(s) && s.reader.Ended? && c in s.calls && !s.calls[c].at.Returned?
    requires s.mu == Free || s.mu == HeldByCall(c)
    ensures exists t :: CallStep(s, c, t)
  {
    var k := s.calls[c];
    assert CallInv(s, c, k);
    match k.at {
      case Entering => assert CallStep(s, c, With(s, c, k.(at := Checking)).(mu := HeldByCall(c)));
      case Writing => assert CallStep(s, c, With(s, c, k.(at := Waiting)));
      case Waiting => assert CallStep(s, c, With(s, c, k.(at := Returned(Got(k.slot.value)), slot := None)));
      case GivingUp(why) => assert CallStep(s, c, With(s, c, k.(at := Dropping(why))).(mu := HeldByCall(c)));
      case _ => HolderSteps(s, c);
    }
  }

  // ---- what may happen, and a call that is answered ---------------------------------------------

  /** A write may fail, a caller may give up, the connection may end and the
      client may be closed, each whenever it could. */
  lemma AnythingMayHappen(s: State, c: int)
    requires c in s.calls
    ensures var k := s.calls[c];
            && (k.at.Writing? ==> Next(s, OldCall(c), With(s, c, k.(at := GivingUp(SendError)))))
            && (k.at.Waiting? ==> Next(s, OldCall(c), With(s, c, k.(at := GivingUp(Cancelled)))))
    ensures s.reader.Scanning? ==> Next(s, Reader, s.(reader := WantEnd))
    ensures s.mu == Free ==> Next(s, Closer, s.(closed := true))
  {
  }

  /** A channel with a response in it takes no other, and whoever holds the
      mutex keeps it from everybody else. */
  lemma ChannelsAndMutex(s: State, c: int, r: Response, t: State)
    ensures SendTo(s, c, r, t) ==> s.calls[c].slot.None?
    ensures s.mu != Free ==> !Close(s, t) && (s.reader.WantTake? || s.reader.WantEnd? ==> !ReaderStep(s, t))
    ensures s.mu != Free && c in s.calls && (s.calls[c].at.Entering? || s.calls[c].at.GivingUp?) ==> !CallStep(s, c, t)
  {
  }

  lemma Then(run: seq<State>, actors: seq<Actor>, a: Actor, t: State) returns (longer: seq<State>, more: seq<Actor>)
    requires IsRun(run, actors) && Next(run[|run| - 1], a, t)
    ensures IsRun(longer, more) && longer[|longer| - 1] == t && longer[0] == run[0]
  {
    longer, more := run + [t], actors + [a];
    forall i | 0 <= i < |more| ensures Next(longer[i], more[i], longer[i + 1]) {
      if i < |actors| {
        assert Next(run[i], actors[i], run[i + 1]);
      }
    }
  }

  /** From the start, a call is made, its response arrives, and it returns it. */
  lemma CallIsAnswered(s0: State, text: int) returns (run: seq<State>, actors: seq<Actor>)
    requires Init(s0)
    ensures IsRun(run, actors) && run[0] == s0
    ensures var s := run[|run| - 1]; 0 in s.calls && s.calls[0].at == Returned(Got(Response(1, Answer(text)))) && s.mu == Free
  {
    var r := Response(1, Answer(text));
    run, actors := CallWaits(s0);
    var s := run[|run| - 1];
    s := s.(reader := WantTake(r), arrived := s.arrived + {r});
    run, actors := Then(run, actors, Reader, s);
    s := s.(mu := HeldByReader, reader := Taking(r));
    run, actors := Then(run, actors, Reader, s);
    s := s.(mu := Free, reader := Delivering(0, r), pending := s.pending - {1});
    run, actors := Then(run, actors, Reader, s);
    s := With(s.(reader := Scanning), 0, s.calls[0].(slot := Some(r), sends := 1));
    run, actors := Then(run, actors, Reader, s);
    s := With(s, 0, s.calls[0].(at := Returned(Got(r)), slot := None));
    run, actors := Then(run, actors, OldCall(0), s);
  }

  lemma CallWaits(s0: State) returns (run: seq<State>, actors: seq<Actor>)
    requires Init(s0)
    ensures IsRun(run, actors) && run[0] == s0
    ensures run[|run| - 1] == With(s0, 0, Call(Waiting, 1, None, 0)).(nextID := 1, pending := map[1 := 0])
  {
    run, actors := [s0], [];
    var s := With(s0, 0, Call(Entering, 0, None, 0));
    run, actors := Then(run, actors, NewCall(0), s);
    s := With(s, 0, Call(Checking, 0, None, 0)).(mu := HeldByCall(0));
    run, actors := Then(run, actors, OldCall(0), s);
    s := With(s, 0, Call(Writing, 1, None, 0)).(mu := Free, nextID := 1, pending := map[1 := 0]);
    run, actors := Then(run, actors, OldCall(0), s);
    s := With(s, 0, Call(Waiting, 1, None, 0));
    run, actors := Then(run, actors, OldCall(0), s);
  }
}
