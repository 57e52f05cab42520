/**
 Single flight: any number of callers of one cached name, interleaved at every Redis call. Each
 caller's token is its number. `Ask` clients use the lock alone, without fetching, and may extend it.
 */
module SingleFlight {
  import opened Options

  /** What a call ends with: a value, an error kept for others, or an error of its own. */
  datatype Outcome<V, E> = Returned(value: V) | Raised(error: E) | Propagated | Denied | Unlocked

  /** Where a client is: before the Redis call, or the fetch, that the name says. */
  datatype Phase<V, E> =
    | Look | TakeLock | Sleep | Recheck | Fetch
    | Store(value: V) | Keep(error: E) | Release(outcome: Outcome<V, E>)
    | Ask(ttl: nat) | Hold
    | Done(outcome: Outcome<V, E>)
  {
    /** Holding the lock, or so it believes. */
    predicate Inside() {
      Recheck? || Fetch? || Store? || Keep? || Release? || Hold?
    }

    /** The outcome it has, once it knows it. */
    function Known(): Option<Outcome<V, E>> {
      if Done? || Release? then Some(outcome) else None
    }
  }

  const LOCK_TTL: nat := 30_000

  /**
   The keys in Redis (the lock with its expiry as it was last set), the clients, and, to talk about a
   run, the values and kept errors fetched so far.
   */
  datatype State<V, E> = State(
    value: Option<V>,
    failure: Option<E>,
    lock: Option<nat>,
    lease: nat,
    clients: seq<Phase<V, E>>,
    fetched: seq<V>,
    kept: seq<E>)

  datatype FetchResult<V, E> = Got(value: V) | Failed(error: E) | OtherError

  /** One atomic step: a client's next Redis call (or fetch, with its result), an extension, or a key expiring. */
  datatype Step<V, E> =
    | Client(i: nat, result: FetchResult<V, E>) | Extend(i: nat, ttl: nat)
    | LockExpires | ValueExpires | FailureExpires

  function Moved<V, E>(s: State<V, E>, i: nat, p: Phase<V, E>): State<V, E>
    requires i < |s.clients|
  {
    s.(clients := s.clients[i := p])
  }

  /** Reads the value and the kept error at once; the value comes first. */
  function LookedUp<V, E>(s: State<V, E>): Option<Outcome<V, E>> {
    if s.value.Some? then Some(Returned(s.value.value))
    else if s.failure.Some? then Some(Raised(s.failure.value))
    else None
  }

  function Advance<V, E>(s: State<V, E>, i: nat, result: FetchResult<V, E>): State<V, E>
    requires i < |s.clients|
  {
    match s.clients[i]
    case Look => Moved(s, i, if LookedUp(s).Some? then Done(LookedUp(s).value) else TakeLock)
    case TakeLock => if s.lock.None? then Moved(s, i, Recheck).(lock := Some(i), lease := LOCK_TTL) else Moved(s, i, Sleep)
    case Sleep => Moved(s, i, Look)
    case Recheck => Moved(s, i, if LookedUp(s).Some? then Release(LookedUp(s).value) else Fetch)
    case Fetch =>
      (match result
       case Got(v) => Moved(s, i, Store(v)).(fetched := s.fetched + [v])
       case Failed(e) => Moved(s, i, Keep(e)).(kept := s.kept + [e])
       case OtherError => Moved(s, i, Release(Propagated)))
    case Store(v) => Moved(s, i, Release(Returned(v))).(value := Some(v))
    case Keep(e) => Moved(s, i, Release(Raised(e))).(failure := Some(e))
    case Release(o) => Moved(s, i, Done(o)).(lock := if s.lock == Some(i) then None else s.lock)
    case Ask(ttl) => if s.lock.None? then Moved(s, i, Hold).(lock := Some(i), lease := ttl) else Moved(s, i, Done(Denied))
    case Hold => Moved(s, i, Done(Unlocked)).(lock := if s.lock == Some(i) then None else s.lock)
    case Done(_) => s
  }

  function Next<V, E>(s: State<V, E>, step: Step<V, E>): State<V, E> {
    match step
    case Client(i, result) => if i < |s.clients| then Advance(s, i, result) else s
    case Extend(i, ttl) =>
      if i < |s.clients| && s.clients[i].Hold? && s.lock == Some(i) then s.(lease := ttl) else s
    case LockExpires => s.(lock := None)
    case ValueExpires => s.(value := None)
    case FailureExpires => s.(failure := None)
  }

  function Run<V, E>(s: State<V, E>, steps: seq<Step<V, E>>): State<V, E> {
    if steps == [] then s else Next(Run(s, steps[..|steps| - 1]), steps[|steps| - 1])
  }

  predicate Initial<V, E>(s: State<V, E>) {
    && s.lock.None? && s.fetched == [] && s.kept == []
    && forall i | 0 <= i < |s.clients| :: s.clients[i].Look? || s.clients[i].Ask?
  }

  // ---------- single flight ----------

  /** The lock is held by the one client inside, and by nobody when none is. */
  predicate Exclusive<V, E>(s: State<V, E>) {
    && (s.lock.Some? ==> s.lock.value < |s.clients| && s.clients[s.lock.value].Inside())
    && (forall i | 0 <= i < |s.clients| && s.clients[i].Inside() :: s.lock == Some(i))
  }

  /** The value a client is about to store, in a state where only one is inside. */
  ghost predicate Storing<V, E>(s: State<V, E>, v: V) {
    s.lock.Some? && s.lock.value < |s.clients| && s.clients[s.lock.value] == Store(v)
  }

  /** Every value known is the stored one; one is being fetched or stored only while there is none. */
  ghost predicate OneValue<V, E>(s: State<V, E>, first: Option<V>) {
    && (forall i | 0 <= i < |s.clients| && s.clients[i].Known().Some? && s.clients[i].Known().value.Returned? ::
          s.value == Some(s.clients[i].Known().value.value))
    && (forall i | 0 <= i < |s.clients| && (s.clients[i].Fetch? || s.clients[i].Store?) :: s.value.None?)
    && (forall i | 0 <= i < |s.clients| && s.clients[i].Store? :: s.fetched == [s.clients[i].value])
    && (forall i | 0 <= i < |s.clients| && s.clients[i].Fetch? :: s.fetched == [])
    && (first.Some? ==> s.value == first && s.fetched == [])
    && (first.None? && s.value.Some? ==> s.fetched == [s.value.value])
    && (s.value.None? ==> s.fetched == [] || (|s.fetched| == 1 && Storing(s, s.fetched[0])))
  }

  predicate Keeps<V, E>(step: Step<V, E>) {
    !step.LockExpires? && !step.ValueExpires?
  }

  lemma {:induction false} StepExclusive<V, E>(s: State<V, E>, step: Step<V, E>)
    requires Exclusive(s) && !step.LockExpires?
    ensures Exclusive(Next(s, step))
  {
    hide Advance;
    if step.Client? && step.i < |s.clients| { ClientExclusive(s, step.i, step.result); }
  }

  lemma {:induction false} ClientExclusive<V, E>(s: State<V, E>, i: nat, result: FetchResult<V, E>)
    requires Exclusive(s) && i < |s.clients|
    ensures Exclusive(Advance(s, i, result))
  {
    hide Advance;
    MovesOne(s, i, result);
  }

  /** A step moves its own client, which takes a free lock on its way in and leaves its own on its way out. */
  lemma {:induction false} MovesOne<V, E>(s: State<V, E>, i: nat, result: FetchResult<V, E>)
    requires i < |s.clients|
    ensures var t := Advance(s, i, result);
            && t.clients == s.clients[i := t.clients[i]]
            && (!s.clients[i].Inside() && t.clients[i].Inside() ==> s.lock.None?)
            && t.lock ==
               if !s.clients[i].Inside() && t.clients[i].Inside() then Some(i)
               else if s.clients[i].Inside() && !t.clients[i].Inside() && s.lock == Some(i) then None
               else s.lock
  {
  }

  lemma {:induction false} StepOneValue<V, E>(s: State<V, E>, step: Step<V, E>, first: Option<V>)
    requires Exclusive(s) && OneValue(s, first) && Keeps(step)
    ensures OneValue(Next(s, step), first)
  {
    hide *;
    if step.Client? && step.i < |s.clients| {
      ClientKeepsOneValue(s, step.i, step.result, first);
    }
    StepIs(s, step);
    SameKeys(s, Next(s, step), first);
  }

  lemma {:induction false} StepIs<V, E>(s: State<V, E>, step: Step<V, E>)
    ensures step.Client? ==> Next(s, step) == if step.i < |s.clients| then Advance(s, step.i, step.result) else s
    ensures step.FailureExpires? ==> Next(s, step) == s.(failure := None)
    ensures step.Extend? ==> Next(s, step) == s.(lease := Next(s, step).lease)
    ensures Keeps(step) <==> step.Client? || step.Extend? || step.FailureExpires?
  {
  }

  lemma {:induction false} SameKeys<V, E>(s: State<V, E>, t: State<V, E>, first: Option<V>)
    requires OneValue(s, first)
    ensures t == s.(failure := t.failure, lease := t.lease) ==> OneValue(t, first)
  {
  }

  lemma {:induction false} ClientKeepsOneValue<V, E>(s: State<V, E>, i: nat, result: FetchResult<V, E>, first: Option<V>)
    requires Exclusive(s) && OneValue(s, first) && i < |s.clients|
    ensures OneValue(Advance(s, i, result), first)
  {
    match s.clients[i]
    case Fetch => FetchKeepsOneValue(s, i, result, first);
    case Store(v) => StoreKeepsOneValue(s, i, v, result, first);
    case Recheck => RecheckKeepsOneValue(s, i, result, first);
    case Look => RecheckKeepsOneValue(s, i, result, first);
    case Release(_) => LeavingKeepsOneValue(s, i, result, first);
    case Hold => LeavingKeepsOneValue(s, i, result, first);
    case Keep(_) => LeavingKeepsOneValue(s, i, result, first);
    case _ => OtherKeepsOneValue(s, i, result, first);
  }

  lemma {:induction false} LeavingKeepsOneValue<V, E>(s: State<V, E>, i: nat, result: FetchResult<V, E>, first: Option<V>)
    requires Exclusive(s) && OneValue(s, first) && i < |s.clients|
    requires s.clients[i].Release? || s.clients[i].Hold? || s.clients[i].Keep?
    ensures OneValue(Advance(s, i, result), first)
  {
  }

  lemma {:induction false} FetchKeepsOneValue<V, E>(s: State<V, E>, i: nat, result: FetchResult<V, E>, first: Option<V>)
    requires Exclusive(s) && OneValue(s, first) && i < |s.clients| && s.clients[i].Fetch?
    ensures OneValue(Advance(s, i, result), first)
  {
  }

  lemma {:induction false} StoreKeepsOneValue<V, E>(s: State<V, E>, i: nat, v: V, result: FetchResult<V, E>, first: Option<V>)
    requires Exclusive(s) && OneValue(s, first) && i < |s.clients| && s.clients[i] == Store(v)
    ensures OneValue(Advance(s, i, result), first)
  {
  }

  lemma {:induction false} RecheckKeepsOneValue<V, E>(s: State<V, E>, i: nat, result: FetchResult<V, E>, first: Option<V>)
    requires Exclusive(s) && OneValue(s, first) && i < |s.clients| && (s.clients[i].Recheck? || s.clients[i].Look?)
    ensures OneValue(Advance(s, i, result), first)
  {
  }

  lemma {:induction false} OtherKeepsOneValue<V, E>(s: State<V, E>, i: nat, result: FetchResult<V, E>, first: Option<V>)
    requires Exclusive(s) && OneValue(s, first) && i < |s.clients|
    requires var p := s.clients[i]; p.TakeLock? || p.Sleep? || p.Ask? || p.Done?
    ensures OneValue(Advance(s, i, result), first)
  {
  }

  lemma {:induction false} RunKeepsOneValue<V, E>(s: State<V, E>, steps: seq<Step<V, E>>)
    requires Initial(s) && forall k | 0 <= k < |steps| :: Keeps(steps[k])
    ensures Exclusive(Run(s, steps)) && OneValue(Run(s, steps), s.value)
    ensures |Run(s, steps).clients| == |s.clients|
  {
    hide Next;
    if steps == [] {
      InitialIsRight(s);
    } else {
      var before := steps[..|steps| - 1];
      RunKeepsOneValue(s, before);
      StepExclusive(Run(s, before), steps[|steps| - 1]);
      StepOneValue(Run(s, before), steps[|steps| - 1], s.value);
      StepKeepsClients(Run(s, before), steps[|steps| - 1]);
    }
  }

  lemma {:induction false} InitialIsRight<V, E>(s: State<V, E>)
    requires Initial(s)
    ensures Exclusive(s) && OneValue(s, s.value)
  {
  }

  lemma {:induction false} StepKeepsClients<V, E>(s: State<V, E>, step: Step<V, E>)
    ensures |Next(s, step).clients| == |s.clients|
  {
  }

  /**
   Single flight, for any number of callers and any interleaving in which neither the lock nor the
   value expires: at most one fetch succeeds, none when a value was there from the start, and every
   caller that returns a value returns that one. The lock is free once all are done.
   */
  lemma {:induction false} AtMostOneFetchSucceeds<V, E>(s: State<V, E>, steps: seq<Step<V, E>>)
    requires Initial(s) && forall k | 0 <= k < |steps| :: Keeps(steps[k])
    ensures var t := Run(s, steps);
            && |t.fetched| <= 1
            && (s.value.Some? ==> t.fetched == [])
            && (forall i | 0 <= i < |t.clients| && t.clients[i].Done? && t.clients[i].outcome.Returned? ::
                  Some(t.clients[i].outcome.value) == if s.value.Some? then s.value else if t.fetched == [] then None else Some(t.fetched[0]))
            && ((forall i | 0 <= i < |t.clients| :: t.clients[i].Done?) ==> t.lock == None)
  {
    hide Next, Run;
    RunKeepsOneValue(s, steps);
    var t := Run(s, steps);
    forall i | 0 <= i < |t.clients| && t.clients[i].Done? && t.clients[i].outcome.Returned?
      ensures s.value.None? ==> t.fetched == [t.clients[i].outcome.value]
    {
      assert t.clients[i].Known().Some?;
    }
  }

  // ---------- kept errors ----------

  /** Every error known is the kept one; nobody fetches while one is kept. */
  ghost predicate OneError<V, E>(s: State<V, E>, first: Option<E>) {
    && (forall i | 0 <= i < |s.clients| && s.clients[i].Known().Some? && s.clients[i].Known().value.Raised? ::
          s.failure == Some(s.clients[i].Known().value.error))
    && (forall i | 0 <= i < |s.clients| && (s.clients[i].Fetch? || s.clients[i].Keep?) :: s.failure.None?)
    && (forall i | 0 <= i < |s.clients| && s.clients[i].Keep? :: s.kept == [s.clients[i].error])
    && (forall i | 0 <= i < |s.clients| && (s.clients[i].Fetch? || s.clients[i].Store?) :: s.kept == [])
    && (first.Some? ==> s.failure == first && s.kept == [])
    && (first.None? && s.failure.Some? ==> s.kept == [s.failure.value])
    && (s.failure.None? && s.kept != [] ==> |s.kept| == 1 && s.lock.Some? && s.lock.value < |s.clients| && s.clients[s.lock.value] == Keep(s.kept[0]))
    && (s.fetched != [] ==> s.kept == [])
  }

  lemma {:induction false} StepOneError<V, E>(s: State<V, E>, step: Step<V, E>, value: Option<V>, first: Option<E>)
    requires Exclusive(s) && OneValue(s, value) && OneError(s, first) && Keeps(step) && !step.FailureExpires?
    ensures OneError(Next(s, step), first)
  {
    hide *;
    StepIs(s, step);
    SameErrors(s, Next(s, step), first);
    if step.Client? && step.i < |s.clients| {
      ClientKeepsOneError(s, step.i, step.result, value, first);
    }
  }

  lemma {:induction false} SameErrors<V, E>(s: State<V, E>, t: State<V, E>, first: Option<E>)
    requires OneError(s, first)
    ensures t == s.(lease := t.lease) ==> OneError(t, first)
  {
  }

  lemma {:induction false} ClientKeepsOneError<V, E>(s: State<V, E>, i: nat, result: FetchResult<V, E>, value: Option<V>, first: Option<E>)
    requires Exclusive(s) && OneValue(s, value) && OneError(s, first) && i < |s.clients|
    ensures OneError(Advance(s, i, result), first)
  {
    match s.clients[i]
    case Fetch => FetchKeepsOneError(s, i, result, value, first);
    case Keep(e) => KeepKeepsOneError(s, i, e, result, first);
    case Recheck => RecheckKeepsOneError(s, i, result, value, first);
    case Look => RecheckKeepsOneError(s, i, result, value, first);
    case Release(_) => LeavingKeepsOneError(s, i, result, first);
    case Hold => LeavingKeepsOneError(s, i, result, first);
    case Store(_) => LeavingKeepsOneError(s, i, result, first);
    case _ => OtherKeepsOneError(s, i, result, first);
  }

  lemma {:induction false} LeavingKeepsOneError<V, E>(s: State<V, E>, i: nat, result: FetchResult<V, E>, first: Option<E>)
    requires Exclusive(s) && OneError(s, first) && i < |s.clients|
    requires s.clients[i].Release? || s.clients[i].Hold? || s.clients[i].Store?
    ensures OneError(Advance(s, i, result), first)
  {
  }

  lemma {:induction false} FetchKeepsOneError<V, E>(s: State<V, E>, i: nat, result: FetchResult<V, E>, value: Option<V>, first: Option<E>)
    requires Exclusive(s) && OneValue(s, value) && OneError(s, first) && i < |s.clients| && s.clients[i].Fetch?
    ensures OneError(Advance(s, i, result), first)
  {
  }

  lemma {:induction false} KeepKeepsOneError<V, E>(s: State<V, E>, i: nat, e: E, result: FetchResult<V, E>, first: Option<E>)
    requires Exclusive(s) && OneError(s, first) && i < |s.clients| && s.clients[i] == Keep(e)
    ensures OneError(Advance(s, i, result), first)
  {
  }

  lemma {:induction false} RecheckKeepsOneError<V, E>(s: State<V, E>, i: nat, result: FetchResult<V, E>, value: Option<V>, first: Option<E>)
    requires Exclusive(s) && OneValue(s, value) && OneError(s, first) && i < |s.clients|
    requires s.clients[i].Recheck? || s.clients[i].Look?
    ensures OneError(Advance(s, i, result), first)
  {
  }

  lemma {:induction false} OtherKeepsOneError<V, E>(s: State<V, E>, i: nat, result: FetchResult<V, E>, first: Option<E>)
    requires Exclusive(s) && OneError(s, first) && i < |s.clients|
    requires var p := s.clients[i]; p.TakeLock? || p.Sleep? || p.Ask? || p.Done?
    ensures OneError(Advance(s, i, result), first)
  {
  }

  lemma {:induction false} RunKeepsOneError<V, E>(s: State<V, E>, steps: seq<Step<V, E>>)
    requires Initial(s) && forall k | 0 <= k < |steps| :: steps[k].Client? || steps[k].Extend?
    ensures OneError(Run(s, steps), s.failure)
  {
    hide Next, OneValue, Exclusive;
    if steps != [] {
      var before := steps[..|steps| - 1];
      RunKeepsOneError(s, before);
      RunKeepsOneValue(s, before);
      StepOneError(Run(s, before), steps[|steps| - 1], s.value, s.failure);
    }
  }

  /**
   While nothing expires, one fetch is all the source sees of this name besides errors that are not
   kept: one value or one kept error, and everybody who raises raises that error.
   */
  lemma {:induction false} AtMostOneFetchCounts<V, E>(s: State<V, E>, steps: seq<Step<V, E>>)
    requires Initial(s) && forall k | 0 <= k < |steps| :: steps[k].Client? || steps[k].Extend?
    ensures var t := Run(s, steps);
            && |t.fetched| + |t.kept| <= 1
            && (forall i, j | 0 <= i < |t.clients| && 0 <= j < |t.clients|
                  && t.clients[i].Done? && t.clients[i].outcome.Raised? && t.clients[j].Done? && t.clients[j].outcome.Raised? ::
                  t.clients[i].outcome.error == t.clients[j].outcome.error)
  {
    hide Next, Run;
    RunKeepsOneValue(s, steps);
    RunKeepsOneError(s, steps);
    var t := Run(s, steps);
    assert forall i | 0 <= i < |t.clients| && t.clients[i].Done? :: t.clients[i].Known() == Some(t.clients[i].outcome);
  }

  // ---------- with expiry ----------

  /** Whether the step expires a key that keeps clients from fetching; kept errors do so when they count. */
  predicate Reopens<V, E>(step: Step<V, E>, errors: bool) {
    step.LockExpires? || step.ValueExpires? || (errors && step.FailureExpires?)
  }

  function Expiries<V, E>(steps: seq<Step<V, E>>, errors: bool): nat {
    if steps == [] then 0
    else Expiries(steps[..|steps| - 1], errors) + if Reopens(steps[|steps| - 1], errors) then 1 else 0
  }

  predicate MayFetch<V, E>(p: Phase<V, E>) {
    p.Recheck? || p.Fetch?
  }

  /** How many clients may still fetch without taking the lock again. */
  function Fetchers<V, E>(clients: seq<Phase<V, E>>): nat {
    if clients == [] then 0
    else Fetchers(clients[..|clients| - 1]) + if MayFetch(clients[|clients| - 1]) then 1 else 0
  }

  lemma {:induction false} FetchersMove<V, E>(clients: seq<Phase<V, E>>, i: nat, p: Phase<V, E>)
    requires i < |clients|
    ensures Fetchers(clients[i := p]) ==
            Fetchers(clients) - (if MayFetch(clients[i]) then 1 else 0) + if MayFetch(p) then 1 else 0
    ensures MayFetch(clients[i]) ==> 1 <= Fetchers(clients)
  {
    var last := |clients| - 1;
    if i < last {
      assert clients[i := p][..last] == clients[..last][i := p];
      FetchersMove(clients[..last], i, p);
    } else {
      assert clients[i := p][..last] == clients[..last];
    }
  }

  lemma {:induction false} NoFetchers<V, E>(clients: seq<Phase<V, E>>)
    requires forall i | 0 <= i < |clients| :: !MayFetch(clients[i])
    ensures Fetchers(clients) == 0
  {
    if clients != [] { NoFetchers(clients[..|clients| - 1]); }
  }

  /** The fetches so far that told something: a value, or, when they count, an error that was kept. */
  function Told<V, E>(s: State<V, E>, errors: bool): nat {
    |s.fetched| + if errors then |s.kept| else 0
  }

  /** Whether a lookup finds what keeps a client from fetching. */
  function Known<V, E>(s: State<V, E>, errors: bool): bool {
    s.value.Some? || (errors && s.failure.Some?)
  }

  /** A fetch that told something, not stored yet. */
  predicate Unstored<V, E>(p: Phase<V, E>, errors: bool) {
    p.Store? || (errors && p.Keep?)
  }

  /** What the keys and the client with the lock have paid for: what is known, and one attempt. */
  function Credit<V, E>(s: State<V, E>, errors: bool): nat
    requires s.lock.Some? ==> s.lock.value < |s.clients|
  {
    if s.lock.None? then (if Known(s, errors) then 1 else 0)
    else
      var p := s.clients[s.lock.value];
      (if Known(s, errors) && !p.Fetch? && !Unstored(p, errors) then 1 else 0) + if MayFetch(p) || Unstored(p, errors) then 1 else 0
  }

  /** Who has the lock is inside; and each fetch, done or to come, is paid for by an expiry, a key or the lock. */
  ghost predicate PaidFor<V, E>(s: State<V, E>, errors: bool, expiries: nat) {
    && (s.lock.Some? ==> s.lock.value < |s.clients| && s.clients[s.lock.value].Inside())
    && Told(s, errors) + Fetchers(s.clients) <= expiries + Credit(s, errors)
  }

  lemma {:induction false} ClientPaysFor<V, E>(s: State<V, E>, i: nat, result: FetchResult<V, E>, errors: bool, expiries: nat)
    requires PaidFor(s, errors, expiries) && i < |s.clients|
    ensures PaidFor(Advance(s, i, result), errors, expiries)
  {
    hide PaidFor, Advance;
    match s.clients[i]
    case Look => LookingPaysFor(s, i, result, errors, expiries);
    case Recheck => LookingPaysFor(s, i, result, errors, expiries);
    case Fetch => FetchPaysFor(s, i, result, errors, expiries);
    case Store(_) => StoringPaysFor(s, i, result, errors, expiries);
    case Keep(_) => StoringPaysFor(s, i, result, errors, expiries);
    case Release(_) => LeavingPaysFor(s, i, result, errors, expiries);
    case Hold => LeavingPaysFor(s, i, result, errors, expiries);
    case _ => OtherPaysFor(s, i, result, errors, expiries);
  }

  lemma {:induction false} LookingPaysFor<V, E>(s: State<V, E>, i: nat, result: FetchResult<V, E>, errors: bool, expiries: nat)
    requires PaidFor(s, errors, expiries) && i < |s.clients| && (s.clients[i].Look? || s.clients[i].Recheck?)
    ensures PaidFor(Advance(s, i, result), errors, expiries)
  {
    hide Fetchers;
    var t := Advance(s, i, result);
    FetchersMove(s.clients, i, t.clients[i]);
    assert t.clients == s.clients[i := t.clients[i]];
  }

  lemma {:induction false} FetchPaysFor<V, E>(s: State<V, E>, i: nat, result: FetchResult<V, E>, errors: bool, expiries: nat)
    requires PaidFor(s, errors, expiries) && i < |s.clients| && s.clients[i].Fetch?
    ensures PaidFor(Advance(s, i, result), errors, expiries)
  {
    hide Fetchers;
    var t := Advance(s, i, result);
    FetchersMove(s.clients, i, t.clients[i]);
    assert t.clients == s.clients[i := t.clients[i]];
  }

  lemma {:induction false} StoringPaysFor<V, E>(s: State<V, E>, i: nat, result: FetchResult<V, E>, errors: bool, expiries: nat)
    requires PaidFor(s, errors, expiries) && i < |s.clients| && (s.clients[i].Store? || s.clients[i].Keep?)
    ensures PaidFor(Advance(s, i, result), errors, expiries)
  {
    hide Fetchers;
    var t := Advance(s, i, result);
    FetchersMove(s.clients, i, t.clients[i]);
    assert t.clients == s.clients[i := t.clients[i]];
  }

  lemma {:induction false} LeavingPaysFor<V, E>(s: State<V, E>, i: nat, result: FetchResult<V, E>, errors: bool, expiries: nat)
    requires PaidFor(s, errors, expiries) && i < |s.clients| && (s.clients[i].Release? || s.clients[i].Hold?)
    ensures PaidFor(Advance(s, i, result), errors, expiries)
  {
    hide Fetchers;
    var t := Advance(s, i, result);
    FetchersMove(s.clients, i, t.clients[i]);
    assert t.clients == s.clients[i := t.clients[i]];
  }

  lemma {:induction false} OtherPaysFor<V, E>(s: State<V, E>, i: nat, result: FetchResult<V, E>, errors: bool, expiries: nat)
    requires PaidFor(s, errors, expiries) && i < |s.clients|
    requires var p := s.clients[i]; p.TakeLock? || p.Sleep? || p.Ask? || p.Done?
    ensures PaidFor(Advance(s, i, result), errors, expiries)
  {
    hide Fetchers;
    var t := Advance(s, i, result);
    FetchersMove(s.clients, i, t.clients[i]);
    assert t.clients == s.clients[i := t.clients[i]];
  }

  lemma {:induction false} StepPaysFor<V, E>(s: State<V, E>, step: Step<V, E>, errors: bool, expiries: nat)
    requires PaidFor(s, errors, expiries)
    ensures PaidFor(Next(s, step), errors, expiries + if Reopens(step, errors) then 1 else 0)
  {
    hide Advance, Fetchers;
    if step.Client? && step.i < |s.clients| { ClientPaysFor(s, step.i, step.result, errors, expiries); }
  }

  lemma {:induction false} RunPaysFor<V, E>(s: State<V, E>, steps: seq<Step<V, E>>, errors: bool)
    requires Initial(s)
    ensures PaidFor(Run(s, steps), errors, Expiries(steps, errors))
  {
    hide Next, PaidFor;
    if steps == [] {
      StartsPaid(s, errors);
    } else {
      var before := steps[..|steps| - 1];
      RunPaysFor(s, before, errors);
      StepPaysFor(Run(s, before), steps[|steps| - 1], errors, Expiries(before, errors));
    }
  }

  lemma {:induction false} StartsPaid<V, E>(s: State<V, E>, errors: bool)
    requires Initial(s)
    ensures PaidFor(s, errors, 0)
  {
    NoFetchers(s.clients);
  }

  lemma {:induction false} RecordsAreFew<V, E>(s: State<V, E>, steps: seq<Step<V, E>>)
    requires Initial(s)
    ensures |Run(s, steps).fetched| <= 1 + Expiries(steps, false)
    ensures |Run(s, steps).fetched| + |Run(s, steps).kept| <= 1 + Expiries(steps, true)
  {
    hide Run, Expiries;
    RunPaysFor(s, steps, false);
    RunPaysFor(s, steps, true);
    var t := Run(s, steps);
    if t.lock.Some? { FetchersMove(t.clients, t.lock.value, t.clients[t.lock.value]); }
  }

  // ---------- fetches, counted from the steps ----------

  /** The step in which client `i` fetches. */
  predicate Fetches<V, E>(s: State<V, E>, step: Step<V, E>) {
    step.Client? && step.i < |s.clients| && s.clients[step.i].Fetch?
  }

  /** The values that the run's fetches got. */
  function Got<V, E>(s: State<V, E>, steps: seq<Step<V, E>>): nat {
    if steps == [] then 0
    else
      var before, step := steps[..|steps| - 1], steps[|steps| - 1];
      Got(s, before) + if Fetches(Run(s, before), step) && step.result.Got? then 1 else 0
  }

  /** The fetches of the run that failed with an error to keep. */
  function FailedOnes<V, E>(s: State<V, E>, steps: seq<Step<V, E>>): nat {
    if steps == [] then 0
    else
      var before, step := steps[..|steps| - 1], steps[|steps| - 1];
      FailedOnes(s, before) + if Fetches(Run(s, before), step) && step.result.Failed? then 1 else 0
  }

  lemma {:induction false} RecordIsSteps<V, E>(s: State<V, E>, steps: seq<Step<V, E>>)
    requires Initial(s)
    ensures |Run(s, steps).fetched| == Got(s, steps) && |Run(s, steps).kept| == FailedOnes(s, steps)
  {
    hide Next, Fetches;
    if steps != [] {
      RecordIsSteps(s, steps[..|steps| - 1]);
      StepRecords(Run(s, steps[..|steps| - 1]), steps[|steps| - 1]);
    }
  }

  lemma {:induction false} StepRecords<V, E>(s: State<V, E>, step: Step<V, E>)
    ensures var t := Next(s, step);
            && |t.fetched| == |s.fetched| + (if Fetches(s, step) && step.result.Got? then 1 else 0)
            && |t.kept| == |s.kept| + (if Fetches(s, step) && step.result.Failed? then 1 else 0)
  {
  }

  /**
   Single flight in every run, counted from its steps: at most one fetch gets a value, and one more for each lock
   or value that expires; together with the fetches that fail with an error to keep, at most one, and one more for
   each lock, value or kept error that expires.
   */
  lemma {:induction false} FetchesAreFew<V, E>(s: State<V, E>, steps: seq<Step<V, E>>)
    requires Initial(s)
    ensures Got(s, steps) <= 1 + Expiries(steps, false)
    ensures Got(s, steps) + FailedOnes(s, steps) <= 1 + Expiries(steps, true)
  {
    hide Run, Expiries, Got, FailedOnes;
    RecordsAreFew(s, steps);
    RecordIsSteps(s, steps);
  }

  // ---------- what a fetch leaves for the others ----------

  lemma {:induction false} StaysInPhase<V, E>(s: State<V, E>, steps: seq<Step<V, E>>, i: nat)
    requires i < |s.clients| && forall k | 0 <= k < |steps| :: steps[k].Client? || steps[k].Extend? ==> steps[k].i != i
    ensures |Run(s, steps).clients| == |s.clients| && Run(s, steps).clients[i] == s.clients[i]
  {
    hide Next;
    if steps != [] {
      StaysInPhase(s, steps[..|steps| - 1], i);
      MovesNoOther(Run(s, steps[..|steps| - 1]), steps[|steps| - 1], i);
    }
  }

  lemma {:induction false} MovesNoOther<V, E>(s: State<V, E>, step: Step<V, E>, i: nat)
    requires i < |s.clients| && (step.Client? ==> step.i != i)
    ensures |Next(s, step).clients| == |s.clients| && Next(s, step).clients[i] == s.clients[i]
  {
  }

  /**
   What a fetch tells reaches the others: the client whose fetch gets a value stores it in its next step, and the
   one whose fetch fails with an error to keep has it kept, whatever the others do in between.
   */
  lemma {:induction false} FetchIsStored<V, E>(s: State<V, E>, i: nat, result: FetchResult<V, E>, between: seq<Step<V, E>>, last: FetchResult<V, E>)
    requires i < |s.clients| && s.clients[i].Fetch?
    requires forall k | 0 <= k < |between| :: between[k].Client? || between[k].Extend? ==> between[k].i != i
    ensures var t := Next(Run(Next(s, Client(i, result)), between), Client(i, last));
            && (result.Got? ==> t.value == Some(result.value))
            && (result.Failed? ==> t.failure == Some(result.error))
            && |t.clients| == |s.clients|
            && (result.Got? ==> t.clients[i] == Release(Returned(result.value)))
            && (result.Failed? ==> t.clients[i] == Release(Raised(result.error)))
            && (result.OtherError? ==> t.clients[i] == Done(Propagated))
  {
    hide Run;
    StaysInPhase(Next(s, Client(i, result)), between, i);
  }

  /** A kept error stays until it expires; another fetch that fails may only put its own in its place. */
  lemma {:induction false} KeptStays<V, E>(s: State<V, E>, steps: seq<Step<V, E>>)
    requires s.failure.Some? && forall k | 0 <= k < |steps| :: !steps[k].FailureExpires?
    ensures Run(s, steps).failure.Some?
    ensures (forall k | 0 <= k < |steps| && steps[k].Client? && steps[k].i < |Run(s, steps[..k]).clients| ::
               !Run(s, steps[..k]).clients[steps[k].i].Keep?) ==> Run(s, steps).failure == s.failure
  {
    hide Next;
    if steps != [] {
      var before := steps[..|steps| - 1];
      KeptStays(s, before);
      assert forall k | 0 <= k < |before| :: before[..k] == steps[..k] && before[k] == steps[k];
      StepKeeps(Run(s, before), steps[|steps| - 1]);
    }
  }

  lemma {:induction false} StepKeeps<V, E>(s: State<V, E>, step: Step<V, E>)
    ensures !step.FailureExpires? && s.failure.Some? ==> Next(s, step).failure.Some?
    ensures !step.FailureExpires? && !(step.Client? && step.i < |s.clients| && s.clients[step.i].Keep?) ==> Next(s, step).failure == s.failure
    ensures !step.ValueExpires? && s.value.Some? ==> Next(s, step).value.Some?
  {
  }

  /**
   Whoever looks, the first time or again under the lock, gets the value, or without one raises the kept error,
   and does not fetch; only one that finds neither goes on.
   */
  lemma {:induction false} LookingAnswers<V, E>(s: State<V, E>, i: nat, result: FetchResult<V, E>)
    requires i < |s.clients| && (s.clients[i].Look? || s.clients[i].Recheck?)
    ensures var p := Next(s, Client(i, result)).clients[i];
            && (s.value.Some? ==> p.Known() == Some(Returned(s.value.value)))
            && (s.value.None? && s.failure.Some? ==> p.Known() == Some(Raised(s.failure.value)))
            && (s.value.None? && s.failure.None? ==> p.TakeLock? || p.Fetch?)
  {
  }

  // ---------- waiting ----------

  /** A caller that has no answer yet and has not fetched. */
  predicate Waits<V, E>(p: Phase<V, E>) {
    p.Look? || p.Sleep? || p.TakeLock? || p.Recheck?
  }

  /** How many steps of its own a caller needs for an answer, while there is one. */
  function Patience<V, E>(p: Phase<V, E>): nat {
    match p
    case TakeLock => 3
    case Sleep => 2
    case Recheck => 2
    case Look => 1
    case Release(_) => 1
    case _ => 0
  }

  function StepsOf<V, E>(steps: seq<Step<V, E>>, i: nat): nat {
    if steps == [] then 0
    else StepsOf(steps[..|steps| - 1], i) + if steps[|steps| - 1].Client? && steps[|steps| - 1].i == i then 1 else 0
  }

  /** Waiting, or with an answer that the keys gave; a value if only a value could be it. */
  ghost predicate Answered<V, E>(p: Phase<V, E>, byValue: bool) {
    Waits(p) || (p.Known().Some? && (p.Known().value.Returned? || (!byValue && p.Known().value.Raised?)))
  }

  lemma {:induction false} AnswerStep<V, E>(s: State<V, E>, step: Step<V, E>, i: nat, byValue: bool)
    requires i < |s.clients| && Answered(s.clients[i], byValue)
    requires LookedUp(s).Some? && (byValue ==> s.value.Some?)
    ensures i < |Next(s, step).clients| && Answered(Next(s, step).clients[i], byValue)
    ensures var own := step.Client? && step.i == i; var p, q := s.clients[i], Next(s, step).clients[i];
            Patience(q) <= (if own && Patience(p) > 0 then Patience(p) - 1 else Patience(p))
  {
    hide Advance, Answered, Patience, LookedUp;
    if step.Client? && step.i == i {
      OwnAnswerStep(s, i, step.result, byValue);
    } else {
      MovesNoOther(s, step, i);
    }
  }

  lemma {:induction false} OwnAnswerStep<V, E>(s: State<V, E>, i: nat, result: FetchResult<V, E>, byValue: bool)
    requires i < |s.clients| && Answered(s.clients[i], byValue)
    requires LookedUp(s).Some? && (byValue ==> s.value.Some?)
    ensures var p, t := s.clients[i], Advance(s, i, result);
            && i < |t.clients| && Answered(t.clients[i], byValue)
            && Patience(t.clients[i]) <= if Patience(p) > 0 then Patience(p) - 1 else Patience(p)
  {
  }

  /**
   A waiting caller needs no luck: while a value or a kept error is there, at most three steps of its own bring it
   to the end, in any interleaving and with any locks expiring; while a value is there, it is a value it returns.
   */
  lemma {:induction false} WaitingIsAnswered<V, E>(s: State<V, E>, steps: seq<Step<V, E>>, i: nat, byValue: bool)
    requires i < |s.clients| && Waits(s.clients[i]) && (if byValue then s.value.Some? else LookedUp(s).Some?)
    requires forall k | 0 <= k < |steps| :: !steps[k].ValueExpires? && (!byValue ==> !steps[k].FailureExpires?)
    ensures var t := Run(s, steps);
            && |t.clients| == |s.clients| && Answered(t.clients[i], byValue)
            && (Patience(s.clients[i]) <= StepsOf(steps, i) ==>
                  && t.clients[i].Done?
                  && (t.clients[i].outcome.Returned? || (!byValue && t.clients[i].outcome.Raised?)))
  {
    hide Run, Next, StepsOf;
    WaitingComesCloser(s, steps, i, byValue);
  }

  lemma {:induction false} WaitingComesCloser<V, E>(s: State<V, E>, steps: seq<Step<V, E>>, i: nat, byValue: bool)
    requires i < |s.clients| && Waits(s.clients[i]) && (if byValue then s.value.Some? else LookedUp(s).Some?)
    requires forall k | 0 <= k < |steps| :: !steps[k].ValueExpires? && (!byValue ==> !steps[k].FailureExpires?)
    ensures var t := Run(s, steps);
            && |t.clients| == |s.clients| && Answered(t.clients[i], byValue)
            && LookedUp(t).Some? && (byValue ==> t.value.Some?)
            && Patience(t.clients[i]) <= (if StepsOf(steps, i) <= Patience(s.clients[i]) then Patience(s.clients[i]) - StepsOf(steps, i) else 0)
  {
    hide Next;
    if steps != [] {
      var before := steps[..|steps| - 1];
      WaitingComesCloser(s, before, i, byValue);
      AnswerStep(Run(s, before), steps[|steps| - 1], i, byValue);
      StepKeeps(Run(s, before), steps[|steps| - 1]);
      StepKeepsClients(Run(s, before), steps[|steps| - 1]);
    }
  }

  // ---------- the lock's expiry ----------

  /** A free lock is taken by whoever asks first, for 30 seconds by a fetch or for as long as asked; a taken one by nobody. */
  lemma {:induction false} LockIsTakenWhenFree<V, E>(s: State<V, E>, i: nat, result: FetchResult<V, E>)
    requires i < |s.clients| && (s.clients[i].TakeLock? || s.clients[i].Ask?)
    ensures var t := Next(s, Client(i, result));
            && (s.lock.None? ==>
                  t.lock == Some(i) && t.clients[i].Inside()
                  && t.lease == (if s.clients[i].Ask? then s.clients[i].ttl else 30_000))
            && (s.lock.Some? ==>
                  t.lock == s.lock && t.lease == s.lease
                  && (if s.clients[i].Ask? then t.clients[i] == Done(Denied) else t.clients[i].Sleep?))
  {
  }

  /** Extending sets the expiry of the lock for the client that has it, and does nothing for any other. */
  lemma {:induction false} ExtendsOwnLock<V, E>(s: State<V, E>, i: nat, ttl: nat)
    requires i < |s.clients| && s.clients[i].Hold?
    ensures var t := Next(s, Extend(i, ttl));
            t == (if s.lock == Some(i) then s.(lease := t.lease) else s) && (s.lock == Some(i) ==> t.lease == ttl)
  {
  }

  ghost predicate Sourced<V, E>(s: State<V, E>, first: Option<V>) {
    && (s.value.Some? ==> s.value == first || s.value.value in s.fetched)
    && (forall i | 0 <= i < |s.clients| && s.clients[i].Store? :: s.clients[i].value in s.fetched)
    && (forall i | 0 <= i < |s.clients| && s.clients[i].Known().Some? && s.clients[i].Known().value.Returned? ::
          Some(s.clients[i].Known().value.value) == first || s.clients[i].Known().value.value in s.fetched)
  }

  /** Whatever expires, a value that is returned was there from the start or was fetched. */
  lemma {:induction false} ReturnedWasFetched<V, E>(s: State<V, E>, steps: seq<Step<V, E>>)
    requires Initial(s)
    ensures Sourced(Run(s, steps), s.value)
  {
    hide Next, Sourced;
    if steps == [] {
      StartsSourced(s);
    } else {
      ReturnedWasFetched(s, steps[..|steps| - 1]);
      StepSourced(Run(s, steps[..|steps| - 1]), steps[|steps| - 1], s.value);
    }
  }

  lemma {:induction false} StartsSourced<V, E>(s: State<V, E>)
    requires Initial(s)
    ensures Sourced(s, s.value)
  {
  }

  lemma {:induction false} StepSourced<V, E>(s: State<V, E>, step: Step<V, E>, first: Option<V>)
    requires Sourced(s, first)
    ensures Sourced(Next(s, step), first)
  {
    hide Advance;
    if step.Client? && step.i < |s.clients| { ClientSourced(s, step.i, step.result, first); }
  }

  lemma {:induction false} ClientSourced<V, E>(s: State<V, E>, i: nat, result: FetchResult<V, E>, first: Option<V>)
    requires Sourced(s, first) && i < |s.clients|
    ensures Sourced(Advance(s, i, result), first)
  {
    hide Advance, Sourced;
    match s.clients[i]
    case Fetch => FetchSourced(s, i, result, first);
    case Store(_) => StoreSourced(s, i, result, first);
    case Look => LookSourced(s, i, result, first);
    case Recheck => LookSourced(s, i, result, first);
    case _ => OtherSourced(s, i, result, first);
  }

  lemma {:induction false} LookSourced<V, E>(s: State<V, E>, i: nat, result: FetchResult<V, E>, first: Option<V>)
    requires Sourced(s, first) && i < |s.clients| && (s.clients[i].Look? || s.clients[i].Recheck?)
    ensures Sourced(Advance(s, i, result), first)
  {
  }

  lemma {:induction false} FetchSourced<V, E>(s: State<V, E>, i: nat, result: FetchResult<V, E>, first: Option<V>)
    requires Sourced(s, first) && i < |s.clients| && s.clients[i].Fetch?
    ensures Sourced(Advance(s, i, result), first)
  {
  }

  lemma {:induction false} StoreSourced<V, E>(s: State<V, E>, i: nat, result: FetchResult<V, E>, first: Option<V>)
    requires Sourced(s, first) && i < |s.clients| && s.clients[i].Store?
    ensures Sourced(Advance(s, i, result), first)
  {
  }

  lemma {:induction false} OtherSourced<V, E>(s: State<V, E>, i: nat, result: FetchResult<V, E>, first: Option<V>)
    requires Sourced(s, first) && i < |s.clients|
    requires var p := s.clients[i]; !p.Fetch? && !p.Store? && !p.Look? && !p.Recheck?
    ensures Sourced(Advance(s, i, result), first)
  {
    hide Advance;
    KnowsNoMore(s, i, result);
    KeepsFetched(s, i, result);
  }

  lemma {:induction false} KeepsFetched<V, E>(s: State<V, E>, i: nat, result: FetchResult<V, E>)
    requires i < |s.clients| && !s.clients[i].Fetch? && !s.clients[i].Store?
    ensures var t := Advance(s, i, result); t.value == s.value && t.fetched == s.fetched
  {
  }

  /** Such a step only moves its client, and tells it no value it did not know. */
  lemma {:induction false} KnowsNoMore<V, E>(s: State<V, E>, i: nat, result: FetchResult<V, E>)
    requires i < |s.clients|
    requires var p := s.clients[i]; !p.Fetch? && !p.Store? && !p.Look? && !p.Recheck?
    ensures var t := Advance(s, i, result);
            && t.clients == s.clients[i := t.clients[i]] && !t.clients[i].Store?
            && (t.clients[i].Known().Some? && t.clients[i].Known().value.Returned? ==> t.clients[i].Known() == s.clients[i].Known())
  {
  }

  // ---------- locks of others ----------

  /** A step of another client, or a key other than the lock expiring. */
  predicate Foreign<V, E>(step: Step<V, E>, holder: nat) {
    !step.LockExpires? && (step.Client? || step.Extend? ==> step.i != holder)
  }

  /**
   Whatever has expired before, nobody releases, takes over or extends a lock that is another's: once a
   client has the lock, it keeps it, and its expiry as set, through any steps of the others until it
   acts itself or the lock expires.
   */
  lemma {:induction false} OthersNeverTouchMyLock<V, E>(s: State<V, E>, steps: seq<Step<V, E>>, holder: nat)
    requires s.lock == Some(holder) && forall k | 0 <= k < |steps| :: Foreign(steps[k], holder)
    ensures Run(s, steps).lock == Some(holder) && Run(s, steps).lease == s.lease
  {
    if steps != [] {
      OthersNeverTouchMyLock(s, steps[..|steps| - 1], holder);
    }
  }

  function Alone<V, E>(i: nat, results: seq<FetchResult<V, E>>): seq<Step<V, E>> {
    seq(|results|, k requires 0 <= k < |results| => Client(i, results[k]))
  }

  /** The steps a holder is from being done, at most. */
  function StepsLeft<V, E>(p: Phase<V, E>): nat {
    match p
    case Recheck => 4
    case Fetch => 3
    case Store(_) => 2
    case Keep(_) => 2
    case Release(_) => 1
    case Hold => 1
    case _ => 0
  }

  predicate Finished<V, E>(s: State<V, E>, i: nat) {
    i < |s.clients| && s.clients[i].Done? && s.lock == None
  }

  lemma {:induction false} HolderAdvances<V, E>(s: State<V, E>, i: nat, result: FetchResult<V, E>)
    requires i < |s.clients| && s.clients[i].Inside() && s.lock == Some(i)
    ensures var t := Next(s, Client(i, result));
            Finished(t, i) || (i < |t.clients| && t.clients[i].Inside() && !t.clients[i].Hold? && t.lock == Some(i)
                               && StepsLeft(t.clients[i]) < StepsLeft(s.clients[i]))
  {
  }

  lemma {:induction false} RunFromFirst<V, E>(s: State<V, E>, step: Step<V, E>, steps: seq<Step<V, E>>)
    ensures Run(s, [step] + steps) == Run(Next(s, step), steps)
  {
    hide Next;
    if steps == [] {
      assert [step] + steps == [step] && [step][..0] == [];
      assert Run(s, [step]) == Next(Run(s, []), step);
    } else {
      var n := |steps| - 1;
      RunFromFirst(s, step, steps[..n]);
      assert ([step] + steps)[..|[step] + steps| - 1] == [step] + steps[..n];
    }
  }

  lemma {:induction false} FinishedStays<V, E>(s: State<V, E>, i: nat, results: seq<FetchResult<V, E>>)
    requires Finished(s, i)
    ensures Finished(Run(s, Alone(i, results)), i)
  {
    if results != [] {
      var n := |results| - 1;
      assert Alone<V, E>(i, results)[..n] == Alone(i, results[..n]);
      FinishedStays(s, i, results[..n]);
    }
  }

  /**
   A holder left alone finishes within four steps and gives the lock back, whatever its fetch does.
   */
  lemma {:induction false} HolderFinishes<V, E>(s: State<V, E>, i: nat, results: seq<FetchResult<V, E>>)
    requires i < |s.clients| && s.clients[i].Inside() && s.lock == Some(i)
    requires StepsLeft(s.clients[i]) <= |results|
    ensures Finished(Run(s, Alone(i, results)), i)
    decreases |results|
  {
    hide Next, Run;
    var step, rest := Client(i, results[0]), Alone<V, E>(i, results[1..]);
    assert Alone<V, E>(i, results) == [step] + rest;
    HolderAdvances(s, i, results[0]);
    RunFromFirst(s, step, rest);
    if Finished(Next(s, step), i) {
      FinishedStays(Next(s, step), i, results[1..]);
    } else {
      HolderFinishes(Next(s, step), i, results[1..]);
    }
  }
}
