/**
 * The virtual monotonic counter service: a map from 64-bit counter id to
 * counter, with create, read, increment and destroy, each answering with a
 * certificate that echoes the caller's nonce, or with `None` (Go's `nil`)
 * when the id is not live.
 *
 * The operations are specified on the abstract state (a map from id to a
 * snapshot of the counter) by the functions Create, Read, Increment and
 * Destroy; the class VirtualMonotonicCounter implements them over heap
 * objects, with the stored counter incremented in place.
 */
module Counters {
  import opened BoundedInts
  import opened Wrappers

  /** What every operation hands back: the counter, its value, and the caller's nonce. */
  datatype Certificate = Certificate(counterId: uint64, value: uint64, nonce: uint64)

  /** A snapshot of one stored counter. */
  datatype CounterState = CounterState(counterId: uint64, value: uint64)

  /** The abstract state of the service. */
  type Store = map<uint64, CounterState>

  /** The state after an operation, and what the operation answered. */
  datatype Transition<C> = Transition(after: Store, cert: C)

  /** Go's `++` on a `uint64`: wraps around to 0 after 2^64 - 1. */
  function Bump(v: uint64): uint64
  {
    (v + 1) % UINT64_LIMIT
  }

  /** Every stored counter carries the id it is stored under. */
  ghost predicate IdsMatchKeys(s: Store)
  {
    forall k :: k in s ==> s[k].counterId == k
  }

  /** CreateNewCounter with `id` standing for the freshly drawn id; an existing counter under `id` is replaced. */
  function Create(s: Store, id: uint64, nonce: uint64): (r: Transition<Certificate>)
    ensures r.cert == Certificate(id, 0, nonce)
    ensures r.after.Keys == s.Keys + {id}
    ensures r.after[id] == CounterState(id, 0)
    ensures forall k :: k in s && k != id ==> r.after[k] == s[k]
  {
    Transition(s[id := CounterState(id, 0)], Certificate(id, 0, nonce))
  }

  /** ReadCounter: the stored counter's id and value, or None when `id` is not live. */
  function Read(s: Store, id: uint64, nonce: uint64): (r: Option<Certificate>)
    ensures r.Some? <==> id in s
    ensures r.Some? ==> r.value.counterId == s[id].counterId && r.value.value == s[id].value && r.value.nonce == nonce
  {
    if id in s then Some(Certificate(s[id].counterId, s[id].value, nonce)) else None
  }

  /** IncrementCounter: bumps the counter under `id` and certifies the new value; None and no change when absent. */
  function Increment(s: Store, id: uint64, nonce: uint64): (r: Transition<Option<Certificate>>)
    ensures r.cert.Some? <==> id in s
    ensures r.after.Keys == s.Keys
    ensures forall k :: k in s && k != id ==> r.after[k] == s[k]
    ensures id in s ==> r.after[id] == CounterState(s[id].counterId, Bump(s[id].value))
    ensures id in s ==> r.cert == Some(Certificate(s[id].counterId, Bump(s[id].value), nonce))
  {
    if id !in s then
      Transition(s, None)
    else
      var c := CounterState(s[id].counterId, Bump(s[id].value));
      Transition(s[id := c], Some(Certificate(c.counterId, c.value, nonce)))
  }

  /** DestroyCounter: removes the counter under `id`; its certificate leaves the value at 0. */
  function Destroy(s: Store, id: uint64, nonce: uint64): (r: Transition<Option<Certificate>>)
    ensures r.cert.Some? <==> id in s
    ensures r.after.Keys == s.Keys - {id}
    ensures forall k :: k in r.after ==> r.after[k] == s[k]
    ensures id in s ==> r.cert == Some(Certificate(s[id].counterId, 0, nonce))
  {
    if id !in s then Transition(s, None) else Transition(s - {id}, Some(Certificate(s[id].counterId, 0, nonce)))
  }

  /** A call a client makes on the service. */
  datatype Call =
    | CreateCall(id: uint64, nonce: uint64)
    | ReadCall(id: uint64, nonce: uint64)
    | IncrementCall(id: uint64, nonce: uint64)
    | DestroyCall(id: uint64, nonce: uint64)

  function Apply(s: Store, call: Call): Transition<Option<Certificate>>
  {
    match call
    case CreateCall(id, nonce) => var t := Create(s, id, nonce); Transition(t.after, Some(t.cert))
    case ReadCall(id, nonce) => Transition(s, Read(s, id, nonce))
    case IncrementCall(id, nonce) => Increment(s, id, nonce)
    case DestroyCall(id, nonce) => Destroy(s, id, nonce)
  }

  /** The state after a sequence of calls, first call first. */
  function Run(s: Store, calls: seq<Call>): Store
    decreases |calls|
  {
    if calls == [] then s else Run(Apply(s, calls[0]).after, calls[1..])
  }

  /** How many of the calls increment `id`. */
  function IncrementsOf(calls: seq<Call>, id: uint64): nat
    decreases |calls|
  {
    if calls == [] then 0
    else (if calls[0].IncrementCall? && calls[0].id == id then 1 else 0) + IncrementsOf(calls[1..], id)
  }

  /** None of the calls creates or destroys `id`. */
  ghost predicate KeepsAlive(calls: seq<Call>, id: uint64)
  {
    forall i :: 0 <= i < |calls| ==> !((calls[i].CreateCall? || calls[i].DestroyCall?) && calls[i].id == id)
  }

  /** Every answer certifies the counter the call named and carries the call's nonce. */
  lemma CertificateNamesCall(s: Store, call: Call)
    requires IdsMatchKeys(s)
    ensures IdsMatchKeys(Apply(s, call).after)
    ensures Apply(s, call).cert.Some? ==>
      Apply(s, call).cert.value.counterId == call.id && Apply(s, call).cert.value.nonce == call.nonce
    ensures Apply(s, call).cert.None? <==> !call.CreateCall? && call.id !in s
  {
  }

  /** The id invariant holds after any sequence of calls. */
  lemma {:induction false} RunKeepsIds(s: Store, calls: seq<Call>)
    requires IdsMatchKeys(s)
    ensures IdsMatchKeys(Run(s, calls))
    decreases |calls|
  {
    if calls != [] {
      CertificateNamesCall(s, calls[0]);
      RunKeepsIds(Apply(s, calls[0]).after, calls[1..]);
    }
  }

  /**
   * A counter that no call creates or destroys stays live, and its value
   * advances by exactly the number of increments addressed to it, modulo 2^64.
   */
  lemma {:induction false} ValueCountsIncrements(s: Store, calls: seq<Call>, id: uint64)
    requires id in s && KeepsAlive(calls, id)
    ensures id in Run(s, calls)
    ensures Run(s, calls)[id].value == (s[id].value + IncrementsOf(calls, id)) % UINT64_LIMIT
    decreases |calls|
  {
    if calls != [] {
      var c := calls[0];
      var next := Apply(s, c).after;
      assert !((c.CreateCall? || c.DestroyCall?) && c.id == id);
      assert KeepsAlive(calls[1..], id) by {
        forall i | 0 <= i < |calls[1..]|
          ensures !((calls[1..][i].CreateCall? || calls[1..][i].DestroyCall?) && calls[1..][i].id == id)
        {
          assert calls[1..][i] == calls[i + 1];
        }
      }
      ValueCountsIncrements(next, calls[1..], id);
      var n := IncrementsOf(calls[1..], id);
      if c.IncrementCall? && c.id == id {
        assert next[id].value == (s[id].value + 1) % UINT64_LIMIT;
        assert ((s[id].value + 1) % UINT64_LIMIT + n) % UINT64_LIMIT == (s[id].value + 1 + n) % UINT64_LIMIT;
      } else {
        assert next[id].value == s[id].value;
      }
    }
  }

  /** Increments never lower a counter except the one that wraps 2^64 - 1 around to 0. */
  lemma IncrementIsMonotonic(s: Store, id: uint64, nonce: uint64)
    requires id in s
    ensures Increment(s, id, nonce).after[id].value > s[id].value <==> s[id].value < UINT64_LIMIT - 1
    ensures s[id].value == UINT64_LIMIT - 1 ==> Increment(s, id, nonce).after[id].value == 0
  {
  }

  /** Create does not check for a live counter under `id`: it resets it to 0. */
  lemma CreateOverwrites(s: Store, id: uint64, nonce: uint64, nonce': uint64)
    requires id in s
    ensures Read(Create(s, id, nonce).after, id, nonce') == Some(Certificate(id, 0, nonce'))
  {
  }

  /** Operations on one id leave every other id's presence and counter alone. */
  lemma Isolation(s: Store, call: Call, other: uint64)
    requires other != call.id
    ensures other in Apply(s, call).after <==> other in s
    ensures other in s ==> Apply(s, call).after[other] == s[other]
  {
  }

  /**
   * The lifecycle of one counter: created at 0, read at 0, incremented to 1
   * and 2, destroyed, and then not found; every answer echoes its nonce.
   */
  lemma Lifecycle(s: Store, x: uint64)
    ensures var s1 := Create(s, x, 5);
      s1.cert == Certificate(x, 0, 5) &&
      Read(s1.after, x, 7) == Some(Certificate(x, 0, 7)) &&
      var s2 := Increment(s1.after, x, 9);
      s2.cert == Some(Certificate(x, 1, 9)) &&
      var s3 := Increment(s2.after, x, 11);
      s3.cert == Some(Certificate(x, 2, 11)) &&
      var s4 := Destroy(s3.after, x, 1);
      s4.cert == Some(Certificate(x, 0, 1)) &&
      Read(s4.after, x, 3) == None
  {
  }

  /** The demonstration driver's calls, all with nonce 123: create, read, increment, destroy. */
  lemma DemoDriver(x: uint64)
    ensures var s1 := Create(map[], x, 123);
      s1.cert == Certificate(x, 0, 123) &&
      Read(s1.after, x, 123) == Some(Certificate(x, 0, 123)) &&
      var s2 := Increment(s1.after, x, 123);
      s2.cert == Some(Certificate(x, 1, 123)) &&
      var s3 := Destroy(s2.after, x, 123);
      s3.cert == Some(Certificate(x, 0, 123)) &&
      s3.after == map[]
  {
  }

  /** On an id that is not live, read, increment and destroy answer None and change nothing. */
  lemma NotFoundIsNotZero(s: Store, id: uint64, nonce: uint64)
    requires id !in s
    ensures Read(s, id, nonce) == None
    ensures Increment(s, id, nonce) == Transition(s, None)
    ensures Destroy(s, id, nonce) == Transition(s, None)
    ensures Read(Create(s, id, nonce).after, id, nonce) == Some(Certificate(id, 0, nonce))
  {
  }

  /** A stored counter (Go's `*Counter`), updated in place by IncrementCounter. */
  class Counter {
    var counterId: uint64
    var value: uint64

    constructor (counterId: uint64, value: uint64)
      ensures this.counterId == counterId && this.value == value
    {
      this.counterId := counterId;
      this.value := value;
    }
  }

  /** The service (Go's `VirtualMonotonicCounter`). */
  class VirtualMonotonicCounter {
    var counters: map<uint64, Counter>

    /** Each counter is stored under its own id; so no two ids share a counter object. */
    ghost predicate Valid()
      reads this, counters.Values
    {
      forall k :: k in counters ==> counters[k].counterId == k
    }

    /** The abstract state: a snapshot of every stored counter. */
    ghost function State(): (s: Store)
      reads this, counters.Values
      ensures s.Keys == counters.Keys
      ensures Valid() ==> IdsMatchKeys(s)
    {
      map k | k in counters :: CounterState(counters[k].counterId, counters[k].value)
    }

    /** A service with no counters, as the demonstration driver builds it. */
    constructor ()
      ensures Valid() && State() == map[]
    {
      counters := map[];
    }

    method CreateNewCounter(counterId: uint64, nonce: uint64) returns (cert: Certificate)
      requires Valid()
      modifies this
      ensures Valid()
      ensures counterId in counters && fresh(counters[counterId])
      ensures State() == Create(old(State()), counterId, nonce).after
      ensures cert == Create(old(State()), counterId, nonce).cert
    {
      var newCounter := new Counter(counterId, 0);
      counters := counters[counterId := newCounter];
      cert := Certificate(counterId, newCounter.value, nonce);
    }

    method ReadCounter(counterId: uint64, nonce: uint64) returns (cert: Option<Certificate>)
      requires Valid()
      ensures cert == Read(State(), counterId, nonce)
    {
      if counterId !in counters {
        return None;
      }
      var counter := counters[counterId];
      return Some(Certificate(counter.counterId, counter.value, nonce));
    }

    method IncrementCounter(counterId: uint64, nonce: uint64) returns (cert: Option<Certificate>)
      requires Valid()
      modifies counters.Values
      ensures Valid()
      ensures counters == old(counters)
      ensures State() == Increment(old(State()), counterId, nonce).after
      ensures cert == Increment(old(State()), counterId, nonce).cert
    {
      if counterId !in counters {
        return None;
      }
      var counter := counters[counterId];
      counter.value := Bump(counter.value);
      return Some(Certificate(counter.counterId, counter.value, nonce));
    }

    method DestroyCounter(counterId: uint64, nonce: uint64) returns (cert: Option<Certificate>)
      requires Valid()
      modifies this
      ensures Valid()
      ensures State() == Destroy(old(State()), counterId, nonce).after
      ensures cert == Destroy(old(State()), counterId, nonce).cert
    {
      if counterId !in counters {
        return None;
      }
      var counter := counters[counterId];
      counters := counters - {counterId};
      return Some(Certificate(counter.counterId, 0, nonce));
    }
  }
}
