/** The request-scoped value bridge (`contextWrapper` in humafiber.go). The API
    framework asks a standard Go context for values. The engine keeps its own
    per-request "locals". The adapter answers from the embedded standard context
    first. On a miss it answers from a snapshot of the locals taken when the
    request was dispatched.

    Go's `any` is a type parameter here. Keys are compared with `==`, as the
    source's `pair.Key == key` does. A stored `nil` is `None`, so a pair holding
    `nil` cannot be told apart from a miss. */
module ValueBridge {
  import opened Wrappers

  /** One snapshotted local (`contextWrapperValue`). */
  datatype Pair<K, V> = Pair(key: K, value: Option<V>)

  /** The bridge: the snapshot, in the engine's visit order, and the embedded
      standard context, seen only through its `Value` lookup. */
  datatype Bridge<!K, V> = Bridge(values: seq<Pair<K, V>>, embedded: K -> Option<V>)

  /** Go's `context.Background()`: it holds no values. */
  function Background<K, V>(): K -> Option<V>
  {
    k => None
  }

  /** No pair of the snapshot has the key. */
  predicate NoMatch<K(==), V>(values: seq<Pair<K, V>>, key: K)
  {
    forall i :: 0 <= i < |values| ==> values[i].key != key
  }

  /** `i` is the earliest pair with the key. */
  predicate FirstMatchAt<K(==), V>(values: seq<Pair<K, V>>, key: K, i: int)
  {
    && 0 <= i < |values|
    && values[i].key == key
    && forall j :: 0 <= j < i ==> values[j].key != key
  }

  /** The loop over the snapshot: the value of the first pair whose key is equal,
      `nil` when there is none. */
  function Scan<K(==), V>(values: seq<Pair<K, V>>, key: K): (r: Option<V>)
    ensures NoMatch(values, key) ==> r.None?
    ensures forall i :: FirstMatchAt(values, key, i) ==> r == values[i].value
  {
    if |values| == 0 then None
    else if values[0].key == key then values[0].value
    else
      assert forall i :: FirstMatchAt(values, key, i) ==> FirstMatchAt(values[1..], key, i - 1);
      Scan(values[1..], key)
  }

  /** `contextWrapper.Value`: a non-nil answer of the embedded context wins;
      otherwise the first snapshot pair with an equal key decides; otherwise nil. */
  function Value<K(==), V>(b: Bridge<K, V>, key: K): (r: Option<V>)
    ensures b.embedded(key).Some? ==> r == b.embedded(key)
    ensures b.embedded(key).None? && NoMatch(b.values, key) ==> r.None?
    ensures forall i :: b.embedded(key).None? && FirstMatchAt(b.values, key, i) ==> r == b.values[i].value
  {
    var raw := b.embedded(key);
    if raw.Some? then raw else Scan(b.values, key)
  }

  /** A key that occurs somewhere occurs a first time. */
  lemma {:induction false} FirstMatchExists<K, V>(values: seq<Pair<K, V>>, key: K)
    requires !NoMatch(values, key)
    ensures exists i :: FirstMatchAt(values, key, i)
    decreases |values|
  {
    if values[0].key == key {
      assert FirstMatchAt(values, key, 0);
    } else {
      var tail := values[1..];
      assert !NoMatch(tail, key) by {
        var k :| 0 <= k < |values| && values[k].key == key;
        assert tail[k - 1].key == key;
      }
      FirstMatchExists(tail, key);
      var i :| FirstMatchAt(tail, key, i);
      assert FirstMatchAt(values, key, i + 1);
    }
  }

  /** `Value` is nil exactly when the embedded context misses and either no pair
      has the key or the first pair that has it holds nil. */
  lemma ValueIsNilIff<K, V>(b: Bridge<K, V>, key: K)
    ensures Value(b, key).None? <==>
      && b.embedded(key).None?
      && (NoMatch(b.values, key) || exists i :: FirstMatchAt(b.values, key, i) && b.values[i].value.None?)
  {
    if b.embedded(key).None? && !NoMatch(b.values, key) {
      FirstMatchExists(b.values, key);
    }
  }

  /** Pairs after the first match are never consulted: appending more locals,
      even under the same key, does not change the answer. */
  lemma LaterPairsIgnored<K, V>(b: Bridge<K, V>, more: seq<Pair<K, V>>, key: K)
    requires !NoMatch(b.values, key)
    ensures Value(Bridge(b.values + more, b.embedded), key) == Value(b, key)
  {
    FirstMatchExists(b.values, key);
    var i :| FirstMatchAt(b.values, key, i);
    assert FirstMatchAt(b.values + more, key, i);
  }

  /** The snapshot holds exactly one pair per visited local, in visit order, with
      key and value copied. */
  ghost predicate SnapshotOf<K, V>(values: seq<Pair<K, V>>, locals: seq<(K, Option<V>)>)
  {
    && |values| == |locals|
    && forall i :: 0 <= i < |values| ==> values[i] == Pair(locals[i].0, locals[i].1)
  }

  /** The snapshot loop of the route handler: one append per local the engine's
      enumeration visits. */
  method BuildSnapshot<K, V>(locals: seq<(K, Option<V>)>) returns (values: seq<Pair<K, V>>)
    ensures SnapshotOf(values, locals)
  {
    values := [];
    var n := 0;
    while n < |locals|
      invariant 0 <= n <= |locals|
      invariant SnapshotOf(values, locals[..n])
    {
      var (key, val) := locals[n];
      values := values + [Pair(key, val)];
      n := n + 1;
    }
    assert locals[..n] == locals;
  }

  /** A local set before dispatch is what the bridge returns for its key, unless
      the embedded context supplies a non-nil value for that key. Locals are
      assumed to have distinct keys, as a per-request key/value store has. */
  lemma LocalVisibleThroughBridge<K, V>(b: Bridge<K, V>, locals: seq<(K, Option<V>)>, i: int)
    requires SnapshotOf(b.values, locals)
    requires forall p, q :: 0 <= p < q < |locals| ==> locals[p].0 != locals[q].0
    requires 0 <= i < |locals|
    ensures Value(b, locals[i].0) == if b.embedded(locals[i].0).Some? then b.embedded(locals[i].0) else locals[i].1
  {
    assert FirstMatchAt(b.values, locals[i].0, i);
  }

  /** The snapshot the handler ends up with if the engine's `Locals` reads its
      argument as a key to look up rather than as a visitor to call: the
      callback never runs and `values` stays nil. */
  function SnapshotAsWritten<K(==), V>(locals: seq<(K, Option<V>)>): (values: seq<Pair<K, V>>)
    ensures forall i :: 0 <= i < |locals| ==> NoMatch(values, locals[i].0)
  {
    []
  }

  /** A non-nil local is invisible through the bridge over such an empty
      snapshot, while the enumerated snapshot `BuildSnapshot` produces returns it. */
  lemma SnapshotAsWrittenHidesLocals<K, V>(locals: seq<(K, Option<V>)>, values: seq<Pair<K, V>>, i: int)
    requires SnapshotOf(values, locals)
    requires forall p, q :: 0 <= p < q < |locals| ==> locals[p].0 != locals[q].0
    requires 0 <= i < |locals| && locals[i].1.Some?
    ensures Value(Bridge(SnapshotAsWritten(locals), Background()), locals[i].0).None?
    ensures Value(Bridge(values, Background()), locals[i].0) == locals[i].1
  {
    LocalVisibleThroughBridge(Bridge(values, Background()), locals, i);
  }

  /** With the `context.Background()` the handler embeds, the bridge answers
      every key from the snapshot alone. */
  lemma BackgroundDefersToSnapshot<K, V>(values: seq<Pair<K, V>>, key: K)
    ensures Value(Bridge(values, Background()), key) == Scan(values, key)
  {
  }
}
