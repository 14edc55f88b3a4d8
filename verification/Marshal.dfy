/**
 Marshalling a guest value outward: arrays, objects and primitives are copied into
 the host heap through a memo table, so that shared and cyclic graphs cross intact.
 */
module Marshal {
  import opened Wrappers
  import opened GuestHeap

  type HostId = nat

  // `HError` is the fresh plain object carrying an error's name and message.
  datatype HostValue =
    | HUndefined | HNull | HBool(b: bool) | HNumber(bits: int) | HString(text: string)
    | HArray(id: HostId) | HObject(id: HostId)
    | HError(name: string, message: string)

  datatype HostCell = HItems(items: seq<HostValue>) | HProps(props: map<string, HostValue>)

  type HostHeap = map<HostId, HostCell>

  type Memo = map<Loc, HostId>

  // `CallFailed` is a failure of the host environment itself.
  datatype MarshalError = TooDeep | LongString | LongArray | ManyProps | CallFailed

  predicate InternalKey(key: string) {
    "__symbol" <= key || "__setter:" <= key
  }

  // The properties that are part of an object's observable shape.
  predicate Visible(p: Property) {
    p.enumerable && !InternalKey(p.key)
  }

  // ---------------------------------------------------------------------
  // Correspondence between the two heaps
  // ---------------------------------------------------------------------

  predicate Same(v: Value, hv: HostValue, memo: Memo) {
    match v
    case Undefined => hv == HUndefined
    case Null => hv == HNull
    case Bool(b) => hv == HBool(b)
    case Number(bits) => hv == HNumber(bits)
    case String(text) => hv == HString(text) && |text| <= MAX_STRING_LEN
    case Array(at) => at in memo && hv == HArray(memo[at])
    case Object(at) => at in memo && hv == HObject(memo[at])
    case Error(name, message) => hv == HError(name, message)
    case Opaque => hv == HUndefined
  }

  predicate Points(v: Value, s: set<Loc>) {
    Container(v) ==> v.at in s
  }

  // Property `i` is the last visible one of its key among the first `n`.
  ghost predicate Last(props: seq<Property>, i: nat, n: nat)
    requires i < n <= |props|
  {
    forall j | i < j < n && Visible(props[j]) :: props[j].key != props[i].key
  }

  // Visible property `i` of the first `n` reached `out`, unless a later one of its key did.
  ghost predicate Stored(props: seq<Property>, i: nat, n: nat, out: map<string, HostValue>, memo: Memo)
    requires i < n <= |props|
  {
    props[i].key in out && Points(props[i].value, memo.Keys)
        && (Last(props, i, n) ==> Same(props[i].value, out[props[i].key], memo))
  }

  ghost predicate Sourced(props: seq<Property>, n: nat, k: string)
    requires n <= |props|
  {
    exists i | 0 <= i < n :: Visible(props[i]) && props[i].key == k
  }

  // The first `n` properties of `props` are what `out` holds; a repeated key keeps its last value.
  ghost predicate SameProps(props: seq<Property>, n: nat, out: map<string, HostValue>, memo: Memo)
    requires n <= |props|
  {
    && (forall i | 0 <= i < n && Visible(props[i]) :: Stored(props, i, n, out, memo))
    && (forall k | k in out :: Sourced(props, n, k))
  }

  // Container `l` and its image agree, edge by edge.
  ghost predicate Matched(h: Heap, memo: Memo, host: HostHeap, l: Loc) {
    && l in h && l in memo && memo[l] in host
    && match h[l]
       case Items(items) =>
         && host[memo[l]].HItems? && |items| <= MAX_ARRAY_LEN && |host[memo[l]].items| == |items|
         && forall i | 0 <= i < |items| :: Same(items[i], host[memo[l]].items[i], memo)
       case Props(props) =>
         && host[memo[l]].HProps? && |props| <= MAX_OBJECT_PROPS
         && SameProps(props, |props|, host[memo[l]].props, memo)
  }

  ghost predicate Extends<K, V>(m: map<K, V>, m': map<K, V>) {
    forall k | k in m :: k in m' && m'[k] == m[k]
  }

  ghost predicate Injective(memo: Memo) {
    forall l, m | l in memo && m in memo && l != m :: memo[l] != memo[m]
  }

  lemma SameGrows(v: Value, hv: HostValue, memo: Memo, memo': Memo)
    requires Same(v, hv, memo) && Extends(memo, memo')
    ensures Same(v, hv, memo')
  {
  }

  lemma SamePropsGrows(props: seq<Property>, n: nat, out: map<string, HostValue>, memo: Memo, memo': Memo)
    requires n <= |props| && SameProps(props, n, out, memo) && Extends(memo, memo')
    ensures SameProps(props, n, out, memo')
  {
    forall i | 0 <= i < n && Visible(props[i]) ensures Stored(props, i, n, out, memo') {
      if Last(props, i, n) {
        SameGrows(props[i].value, out[props[i].key], memo, memo');
      }
    }
  }

  // A matched container stays matched while the memo grows and its image is left alone.
  lemma MatchedGrows(h: Heap, memo: Memo, host: HostHeap, memo': Memo, host': HostHeap, l: Loc)
    requires Matched(h, memo, host, l) && Extends(memo, memo')
    requires memo[l] in host' && host'[memo[l]] == host[memo[l]]
    ensures Matched(h, memo', host', l)
  {
    match h[l]
    case Items(items) =>
      forall i | 0 <= i < |items| ensures Same(items[i], host[memo[l]].items[i], memo') {
        SameGrows(items[i], host[memo[l]].items[i], memo, memo');
      }
    case Props(props) => SamePropsGrows(props, |props|, host[memo[l]].props, memo, memo');
  }

  // ---------------------------------------------------------------------
  // Reachability and limits
  // ---------------------------------------------------------------------

  // A set of containers closed under element and visible property edges.
  ghost predicate ClosedSet(h: Heap, s: set<Loc>) {
    forall l | l in s && l in h ::
      match h[l]
      case Items(items) => forall i | 0 <= i < |items| :: Points(items[i], s)
      case Props(props) => forall i | 0 <= i < |props| :: Visible(props[i]) ==> Points(props[i].value, s)
  }

  function Room(depth: nat): nat {
    if depth > MAX_MARSHAL_DEPTH then 0 else MAX_MARSHAL_DEPTH + 1 - depth
  }

  // Every path from `v` that repeats no container stays within the limits;
  // `above` are the containers the path already went through.
  ghost predicate WithinLimits(h: Heap, v: Value, depth: nat, above: set<Loc>)
    requires Closed(h) && Typed(h, v)
    decreases Room(depth)
  {
    && depth <= MAX_MARSHAL_DEPTH
    && (v.String? ==> |v.text| <= MAX_STRING_LEN)
    && (Container(v) && v.at !in above ==>
          assert TypedCell(h, h[v.at]);
          match h[v.at]
          case Items(items) =>
            |items| <= MAX_ARRAY_LEN && forall i | 0 <= i < |items| ::
                WithinLimits(h, items[i], depth + 1, above + {v.at})
          case Props(props) =>
            && |props| <= MAX_OBJECT_PROPS
            && forall i | 0 <= i < |props| :: Visible(props[i])
                ==> WithinLimits(h, props[i].value, depth + 1, above + {v.at}))
  }

  // ---------------------------------------------------------------------
  // The walk, as steps between snapshots of memo table and host heap
  // ---------------------------------------------------------------------

  datatype Snapshot = Snapshot(memo: Memo, host: HostHeap, next: HostId)

  ghost predicate Sane(p: Snapshot) {
    && (forall id | id in p.host :: id < p.next)
    && (forall l | l in p.memo :: p.memo[l] in p.host)
    && (forall id | id in p.host :: id in p.memo.Values)
    && Injective(p.memo)
  }

  ghost predicate Grows(p: Snapshot, q: Snapshot) {
    Sane(q) && Extends(p.memo, q.memo) && Extends(p.host, q.host)
  }

  // Between `p` and `q` the value `v` crossed as `hv`: the containers added are
  // matched, and they are no more than what `v` reaches.
  ghost predicate Crossed(h: Heap, v: Value, hv: HostValue, p: Snapshot, q: Snapshot) {
    && Same(v, hv, q.memo)
    && (forall l | l in q.memo && l !in p.memo :: Matched(h, q.memo, q.host, l))
    && (forall s: set<Loc> | ClosedSet(h, s) && Points(v, s) :: q.memo.Keys <= s + p.memo.Keys)
  }

  // Container `at` is registered as `id` and under construction.
  ghost predicate Open(h: Heap, at: Loc, id: HostId, p: Snapshot, q: Snapshot) {
    && Grows(p, q)
    && at in h && at !in p.memo && id !in p.host && id in q.host
    && at in q.memo && q.memo[at] == id
    && (forall l | l in q.memo && l !in p.memo && l != at :: Matched(h, q.memo, q.host, l))
    && (forall s: set<Loc> | ClosedSet(h, s) && at in s :: q.memo.Keys <= s + p.memo.Keys)
  }

  ghost predicate OpenArray(h: Heap, at: Loc, id: HostId, p: Snapshot, q: Snapshot, n: nat) {
    && Open(h, at, id, p, q)
    && h[at].Items? && n <= |h[at].items| <= MAX_ARRAY_LEN
    && q.host[id].HItems? && |q.host[id].items| == |h[at].items|
    && forall i | 0 <= i < n :: Same(h[at].items[i], q.host[id].items[i], q.memo)
  }

  ghost predicate OpenObject(h: Heap, at: Loc, id: HostId, p: Snapshot, q: Snapshot, n: nat) {
    && Open(h, at, id, p, q)
    && h[at].Props? && n <= |h[at].props| <= MAX_OBJECT_PROPS
    && q.host[id].HProps? && SameProps(h[at].props, n, q.host[id].props, q.memo)
  }

  function Create(p: Snapshot, at: Loc, c: HostCell): Snapshot {
    Snapshot(p.memo[at := p.next], p.host[p.next := c], p.next + 1)
  }

  function Put(p: Snapshot, id: HostId, c: HostCell): Snapshot {
    p.(host := p.host[id := c])
  }

  lemma CreateOpens(h: Heap, p: Snapshot, at: Loc, c: HostCell)
    requires Sane(p) && at in h && at !in p.memo
    ensures Open(h, at, p.next, p, Create(p, at, c))
  {
    var q := Create(p, at, c);
    forall id | id in q.host ensures id in q.memo.Values {
      if id == p.next {
        assert q.memo[at] == id;
      } else {
        var l :| l in p.memo && p.memo[l] == id;
        assert q.memo[l] == id;
      }
    }
  }

  // Replacing the cell under construction touches no other image.
  lemma PutKeepsOpen(h: Heap, at: Loc, id: HostId, p: Snapshot, q: Snapshot, c: HostCell)
    requires Open(h, at, id, p, q)
    ensures Open(h, at, id, p, Put(q, id, c))
  {
    forall l | l in q.memo && l !in p.memo && l != at ensures Matched(h, q.memo, Put(q, id, c).host, l) {
      assert q.memo[l] != q.memo[at];
      MatchedGrows(h, q.memo, q.host, q.memo, Put(q, id, c).host, l);
    }
  }

  // Crossing a child of the container under construction keeps it open.
  lemma CrossKeepsOpen(h: Heap, at: Loc, id: HostId, p: Snapshot, q: Snapshot, v: Value, hv: HostValue, r: Snapshot)
    requires Open(h, at, id, p, q) && Grows(q, r) && Crossed(h, v, hv, q, r)
    requires forall s: set<Loc> | ClosedSet(h, s) && at in s :: Points(v, s)
    ensures Open(h, at, id, p, r)
  {
    forall l | l in r.memo && l !in p.memo && l != at ensures Matched(h, r.memo, r.host, l) {
      if l in q.memo {
        MatchedGrows(h, q.memo, q.host, r.memo, r.host, l);
      }
    }
    forall s: set<Loc> | ClosedSet(h, s) && at in s ensures r.memo.Keys <= s + p.memo.Keys {
      assert Points(v, s);
    }
  }

  lemma ArrayStep(h: Heap, at: Loc, id: HostId, p: Snapshot, q: Snapshot, n: nat, hv: HostValue, r: Snapshot)
    requires OpenArray(h, at, id, p, q, n) && n < |h[at].items|
    requires Grows(q, r) && Crossed(h, h[at].items[n], hv, q, r)
    ensures r.host[id] == q.host[id]
    ensures OpenArray(h, at, id, p, Put(r, id, HItems(r.host[id].items[n := hv])), n + 1)
  {
    var items := h[at].items;
    CrossKeepsOpen(h, at, id, p, q, items[n], hv, r);
    PutKeepsOpen(h, at, id, p, r, HItems(r.host[id].items[n := hv]));
    forall i | 0 <= i < n ensures Same(items[i], r.host[id].items[i], r.memo) {
      SameGrows(items[i], q.host[id].items[i], q.memo, r.memo);
    }
  }

  lemma ArrayDone(h: Heap, at: Loc, id: HostId, p: Snapshot, q: Snapshot)
    requires at in h && h[at].Items? && OpenArray(h, at, id, p, q, |h[at].items|)
    ensures Crossed(h, Array(at), HArray(id), p, q)
  {
    assert Matched(h, q.memo, q.host, at);
  }

  lemma StoredPut(props: seq<Property>, i: nat, n: nat, out: map<string, HostValue>, memo: Memo, hv: HostValue)
    requires i < n < |props| && Visible(props[n]) && Stored(props, i, n, out, memo)
    ensures Stored(props, i, n + 1, out[props[n].key := hv], memo)
  {
    if Last(props, i, n + 1) {
      assert Last(props, i, n) && props[n].key != props[i].key;
    }
  }

  lemma SourcedGrows(props: seq<Property>, n: nat, k: string)
    requires n < |props| && (Sourced(props, n, k) || (Visible(props[n]) && props[n].key == k))
    ensures Sourced(props, n + 1, k)
  {
  }

  lemma SamePropsPut(props: seq<Property>, n: nat, out: map<string, HostValue>, memo: Memo, hv: HostValue)
    requires n < |props| && Visible(props[n]) && SameProps(props, n, out, memo) && Same(props[n].value, hv, memo)
    ensures SameProps(props, n + 1, out[props[n].key := hv], memo)
  {
    var out' := out[props[n].key := hv];
    forall i | 0 <= i < n + 1 && Visible(props[i]) ensures Stored(props, i, n + 1, out', memo) {
      if i < n {
        StoredPut(props, i, n, out, memo, hv);
      }
    }
    forall k | k in out' ensures Sourced(props, n + 1, k) {
      SourcedGrows(props, n, k);
    }
  }

  lemma ObjectStep(h: Heap, at: Loc, id: HostId, p: Snapshot, q: Snapshot, n: nat, hv: HostValue, r: Snapshot)
    requires OpenObject(h, at, id, p, q, n) && n < |h[at].props| && Visible(h[at].props[n])
    requires Grows(q, r) && Crossed(h, h[at].props[n].value, hv, q, r)
    ensures r.host[id] == q.host[id]
    ensures OpenObject(h, at, id, p, Put(r, id, HProps(r.host[id].props[h[at].props[n].key := hv])), n + 1)
  {
    var props := h[at].props;
    CrossKeepsOpen(h, at, id, p, q, props[n].value, hv, r);
    PutKeepsOpen(h, at, id, p, r, HProps(r.host[id].props[props[n].key := hv]));
    SamePropsGrows(props, n, q.host[id].props, q.memo, r.memo);
    SamePropsPut(props, n, r.host[id].props, r.memo, hv);
  }

  lemma ObjectSkip(h: Heap, at: Loc, id: HostId, p: Snapshot, q: Snapshot, n: nat)
    requires OpenObject(h, at, id, p, q, n) && n < |h[at].props| && !Visible(h[at].props[n])
    ensures OpenObject(h, at, id, p, q, n + 1)
  {
    var props := h[at].props;
    forall i | 0 <= i < n + 1 && Visible(props[i]) ensures Stored(props, i, n + 1, q.host[id].props, q.memo) {
      if Last(props, i, n + 1) {
        assert Last(props, i, n);
      }
    }
    forall k | k in q.host[id].props ensures Sourced(props, n + 1, k) {
      SourcedGrows(props, n, k);
    }
  }

  lemma ObjectDone(h: Heap, at: Loc, id: HostId, p: Snapshot, q: Snapshot)
    requires at in h && h[at].Props? && OpenObject(h, at, id, p, q, |h[at].props|)
    ensures Crossed(h, Object(at), HObject(id), p, q)
  {
    assert Matched(h, q.memo, q.host, at);
  }

  // ---------------------------------------------------------------------
  // The walker. Memo table and host heap are threaded through as `p` and `q`.
  // ---------------------------------------------------------------------

  method Walk(h: Heap, v: Value, depth: nat, p: Snapshot, ghost above: set<Loc>)
    returns (r: Result<HostValue, MarshalError>, q: Snapshot)
    requires Closed(h) && Sane(p) && Typed(h, v) && above <= p.memo.Keys
    ensures Grows(p, q)
    ensures r.Ok? ==> Crossed(h, v, r.value, p, q)
    ensures r.Err? && WithinLimits(h, v, depth, above) ==> r.error.CallFailed?
    decreases Room(depth), 1
  {
    q := p;
    if depth > MAX_MARSHAL_DEPTH {
      r := Err(TooDeep);
      return;
    }
    if * {
      r := Err(CallFailed);
      return;
    }
    match v
    case Undefined => r := Ok(HUndefined);
    case Null => r := Ok(HNull);
    case Bool(b) => r := Ok(HBool(b));
    case Number(bits) => r := Ok(HNumber(bits));
    case String(text) => r := if |text| > MAX_STRING_LEN then Err(LongString) else Ok(HString(text));
    case Error(name, message) => r := Ok(HError(name, message));
    case Opaque => r := Ok(HUndefined);
    case Array(at) => r, q := WalkArray(h, at, depth, p, above);
    case Object(at) => r, q := WalkObject(h, at, depth, p, above);
  }

  method WalkArray(h: Heap, at: Loc, depth: nat, p: Snapshot, ghost above: set<Loc>)
    returns (r: Result<HostValue, MarshalError>, q: Snapshot)
    requires Closed(h) && Sane(p) && Typed(h, Array(at)) && above <= p.memo.Keys
    requires depth <= MAX_MARSHAL_DEPTH
    ensures Grows(p, q)
    ensures r.Ok? ==> Crossed(h, Array(at), r.value, p, q)
    ensures r.Err? && WithinLimits(h, Array(at), depth, above) ==> r.error.CallFailed?
    decreases Room(depth), 0, 1
  {
    q := p;
    if at in p.memo {
      r := Ok(HArray(p.memo[at]));
      return;
    }
    if |h[at].items| > MAX_ARRAY_LEN {
      r := Err(LongArray);
      return;
    }
    var cell := HItems(seq(|h[at].items|, _ => HUndefined));
    CreateOpens(h, p, at, cell);
    var failure;
    failure, q := FillArray(h, at, p.next, depth, p, Create(p, at, cell), above);
    if failure.Some? {
      r := Err(failure.value);
    } else {
      ArrayDone(h, at, p.next, p, q);
      r := Ok(HArray(p.next));
    }
  }

  method FillArray(h: Heap, at: Loc, id: HostId, depth: nat, ghost p: Snapshot, start: Snapshot, ghost above: set<Loc>)
    returns (failure: Option<MarshalError>, q: Snapshot)
    requires Closed(h) && OpenArray(h, at, id, p, start, 0) && above <= p.memo.Keys
    requires depth <= MAX_MARSHAL_DEPTH
    ensures Grows(p, q)
    ensures failure.None? ==> OpenArray(h, at, id, p, q, |h[at].items|)
    ensures failure.Some? && WithinLimits(h, Array(at), depth, above) ==> failure.value.CallFailed?
    decreases Room(depth), 0, 0
  {
    failure, q := None, start;
    var items := h[at].items;
    assert TypedCell(h, h[at]);
    var i := 0;
    while i < |items|
      invariant 0 <= i <= |items|
      invariant failure.None?
      invariant OpenArray(h, at, id, p, q, i)
    {
      failure, q := PutItem(h, at, id, i, depth, p, q, above);
      if failure.Some? {
        return;
      }
      i := i + 1;
    }
  }

  // One round of the loop over the elements.
  method PutItem(h: Heap, at: Loc, id: HostId, i: nat, depth: nat, ghost p: Snapshot, before: Snapshot,
      ghost above: set<Loc>)
    returns (failure: Option<MarshalError>, q: Snapshot)
    requires Closed(h) && OpenArray(h, at, id, p, before, i) && i < |h[at].items|
    requires above <= p.memo.Keys && depth <= MAX_MARSHAL_DEPTH && Typed(h, h[at].items[i])
    ensures Grows(p, q)
    ensures failure.None? ==> OpenArray(h, at, id, p, q, i + 1)
    ensures failure.Some? && WithinLimits(h, h[at].items[i], depth + 1, above + {at}) ==> failure.value.CallFailed?
    decreases Room(depth + 1), 2
  {
    var ev;
    ev, q := Walk(h, h[at].items[i], depth + 1, before, above + {at});
    if ev.Err? {
      failure := Some(ev.error);
    } else {
      ArrayStep(h, at, id, p, before, i, ev.value, q);
      if * {
        failure := Some(CallFailed);
      } else {
        q := Put(q, id, HItems(q.host[id].items[i := ev.value]));
        failure := None;
      }
    }
  }

  method WalkObject(h: Heap, at: Loc, depth: nat, p: Snapshot, ghost above: set<Loc>)
    returns (r: Result<HostValue, MarshalError>, q: Snapshot)
    requires Closed(h) && Sane(p) && Typed(h, Object(at)) && above <= p.memo.Keys
    requires depth <= MAX_MARSHAL_DEPTH
    ensures Grows(p, q)
    ensures r.Ok? ==> Crossed(h, Object(at), r.value, p, q)
    ensures r.Err? && WithinLimits(h, Object(at), depth, above) ==> r.error.CallFailed?
    decreases Room(depth), 0, 1
  {
    q := p;
    if at in p.memo {
      r := Ok(HObject(p.memo[at]));
      return;
    }
    CreateOpens(h, p, at, HProps(map[]));
    q := Create(p, at, HProps(map[]));
    if |h[at].props| > MAX_OBJECT_PROPS {
      r := Err(ManyProps);
      return;
    }
    var failure;
    failure, q := FillObject(h, at, p.next, depth, p, q, above);
    if failure.Some? {
      r := Err(failure.value);
    } else {
      ObjectDone(h, at, p.next, p, q);
      r := Ok(HObject(p.next));
    }
  }

  method FillObject(h: Heap, at: Loc, id: HostId, depth: nat, ghost p: Snapshot, start: Snapshot, ghost above: set<Loc>)
    returns (failure: Option<MarshalError>, q: Snapshot)
    requires Closed(h) && OpenObject(h, at, id, p, start, 0) && above <= p.memo.Keys
    requires depth <= MAX_MARSHAL_DEPTH
    ensures Grows(p, q)
    ensures failure.None? ==> OpenObject(h, at, id, p, q, |h[at].props|)
    ensures failure.Some? && WithinLimits(h, Object(at), depth, above) ==> failure.value.CallFailed?
    decreases Room(depth), 0, 0
  {
    failure, q := None, start;
    var props := h[at].props;
    assert TypedCell(h, h[at]);
    var i := 0;
    while i < |props|
      invariant 0 <= i <= |props|
      invariant failure.None?
      invariant OpenObject(h, at, id, p, q, i)
    {
      PropWithin(h, at, depth, above, i);
      failure, q := PutProp(h, at, id, i, depth, p, q, above);
      if failure.Some? {
        return;
      }
      i := i + 1;
    }
  }

  lemma PropWithin(h: Heap, at: Loc, depth: nat, above: set<Loc>, i: nat)
    requires Closed(h) && at in h && at !in above && h[at].Props? && i < |h[at].props| && Typed(h, h[at].props[i].value)
    ensures WithinLimits(h, Object(at), depth, above) && Visible(h[at].props[i]) ==>
              WithinLimits(h, h[at].props[i].value, depth + 1, above + {at})
  {
  }

  // One round of the loop over the properties.
  method PutProp(h: Heap, at: Loc, id: HostId, i: nat, depth: nat, ghost p: Snapshot, before: Snapshot,
      ghost above: set<Loc>)
    returns (failure: Option<MarshalError>, q: Snapshot)
    requires Closed(h) && OpenObject(h, at, id, p, before, i) && i < |h[at].props|
    requires above <= p.memo.Keys && depth <= MAX_MARSHAL_DEPTH && Typed(h, h[at].props[i].value)
    ensures Grows(p, q)
    ensures failure.None? ==> OpenObject(h, at, id, p, q, i + 1)
    ensures failure.Some? ==> Visible(h[at].props[i])
    ensures failure.Some? && WithinLimits(h, h[at].props[i].value, depth + 1, above + {at})
            ==> failure.value.CallFailed?
    decreases Room(depth + 1), 2
  {
    if !Visible(h[at].props[i]) {
      ObjectSkip(h, at, id, p, before, i);
      failure, q := None, before;
      return;
    }
    var ev;
    ev, q := Walk(h, h[at].props[i].value, depth + 1, before, above + {at});
    if ev.Err? {
      failure := Some(ev.error);
    } else {
      ObjectStep(h, at, id, p, before, i, ev.value, q);
      if * {
        failure := Some(CallFailed);
      } else {
        q := Put(q, id, HProps(q.host[id].props[h[at].props[i].key := ev.value]));
        failure := None;
      }
    }
  }

  // ---------------------------------------------------------------------
  // The whole crossing
  // ---------------------------------------------------------------------

  // The memo table is an isomorphism from exactly what `v` reaches onto the host copy.
  ghost predicate Isomorphic(h: Heap, v: Value, hv: HostValue, memo: Memo, host: HostHeap) {
    && Same(v, hv, memo)
    && Injective(memo) && memo.Values == host.Keys
    && (forall l | l in memo :: Matched(h, memo, host, l))
    && ClosedSet(h, memo.Keys)
    && (forall s: set<Loc> | ClosedSet(h, s) && Points(v, s) :: memo.Keys <= s)
  }

  lemma MatchedIsClosed(h: Heap, memo: Memo, host: HostHeap)
    requires forall l | l in memo :: Matched(h, memo, host, l)
    ensures ClosedSet(h, memo.Keys)
  {
    forall l | l in memo && l in h
      ensures h[l].Items? ==> forall i | 0 <= i < |h[l].items| :: Points(h[l].items[i], memo.Keys)
      ensures h[l].Props? ==>
                forall i | 0 <= i < |h[l].props| ::
                  Visible(h[l].props[i]) ==> Points(h[l].props[i].value, memo.Keys)
    {
      assert Matched(h, memo, host, l);
    }
  }

  // The copy of an object has exactly the keys of its enumerable properties that are neither symbols
  // nor setters, and the values of the last property of each.
  lemma CopiedKeys(h: Heap, memo: Memo, host: HostHeap, l: Loc, k: string)
    requires l in memo && Matched(h, memo, host, l) && h[l].Props?
    ensures k in host[memo[l]].props <==>
            && (exists i | 0 <= i < |h[l].props| :: h[l].props[i].key == k && h[l].props[i].enumerable)
            && !(|k| >= 8 && k[..8] == "__symbol") && !(|k| >= 9 && k[..9] == "__setter:")
  {
    var props, out := h[l].props, host[memo[l]].props;
    assert InternalKey(k) <==> (|k| >= 8 && k[..8] == "__symbol") || (|k| >= 9 && k[..9] == "__setter:");
    if k in out {
      assert Sourced(props, |props|, k);
    }
    if i :| 0 <= i < |props| && props[i].key == k && Visible(props[i]) {
      assert Stored(props, i, |props|, out, memo);
    }
  }

  method ToNapi(h: Heap, v: Value) returns (r: Result<HostValue, MarshalError>, q: Snapshot)
    requires Closed(h) && Typed(h, v)
    ensures r.Ok? ==> Isomorphic(h, v, r.value, q.memo, q.host)
    ensures r.Err? && WithinLimits(h, v, 0, {}) ==> r.error.CallFailed?
  {
    r, q := Walk(h, v, 0, Snapshot(map[], map[], 0), {});
    if r.Ok? {
      MatchedIsClosed(h, q.memo, q.host);
    }
  }

  // ---------------------------------------------------------------------
  // What a reader of the two graphs can see
  // ---------------------------------------------------------------------

  // The lookup of a key sees one property, whichever of several it would pick.
  ghost predicate UniqueKeys(h: Heap) {
    forall l | l in h && h[l].Props? ::
      forall i, j | 0 <= i < j < |h[l].props| :: h[l].props[i].key != h[l].props[j].key
  }

  datatype Access = Index(i: nat) | Key(k: string)

  ghost predicate HasKey(props: seq<Property>, k: string, i: nat) {
    i < |props| && Visible(props[i]) && props[i].key == k
  }

  ghost function Get(h: Heap, v: Value, path: seq<Access>): Option<Value>
    decreases |path|
  {
    if path == [] then Some(v)
    else if path[0].Index? then
      if v.Array? && v.at in h && h[v.at].Items? && path[0].i < |h[v.at].items|
      then Get(h, h[v.at].items[path[0].i], path[1..]) else None
    else
      if v.Object? && v.at in h && h[v.at].Props? && exists i: nat :: HasKey(h[v.at].props, path[0].k, i)
      then var i: nat :| HasKey(h[v.at].props, path[0].k, i); Get(h, h[v.at].props[i].value, path[1..]) else None
  }

  function HostGet(host: HostHeap, hv: HostValue, path: seq<Access>): Option<HostValue>
    decreases |path|
  {
    if path == [] then Some(hv)
    else if path[0].Index? then
      if hv.HArray? && hv.id in host && host[hv.id].HItems? && path[0].i < |host[hv.id].items|
      then HostGet(host, host[hv.id].items[path[0].i], path[1..]) else None
    else
      if hv.HObject? && hv.id in host && host[hv.id].HProps? && path[0].k in host[hv.id].props
      then HostGet(host, host[hv.id].props[path[0].k], path[1..]) else None
  }

  // Every access path that works on one side works on the other and reaches corresponding values.
  lemma {:induction false} PathsCommute(h: Heap, v: Value, hv: HostValue, memo: Memo, host: HostHeap, path: seq<Access>)
    requires Closed(h) && UniqueKeys(h) && Typed(h, v)
    requires Same(v, hv, memo) && forall l | l in memo :: Matched(h, memo, host, l)
    ensures Get(h, v, path).Some? <==> HostGet(host, hv, path).Some?
    ensures Get(h, v, path).Some? ==> Same(Get(h, v, path).value, HostGet(host, hv, path).value, memo)
    decreases |path|
  {
    if path != [] && Container(v) {
      assert Matched(h, memo, host, v.at);
      assert TypedCell(h, h[v.at]);
      if v.Array? && path[0].Index? {
        if path[0].i < |h[v.at].items| {
          PathsCommute(h, h[v.at].items[path[0].i], host[hv.id].items[path[0].i], memo, host, path[1..]);
        }
      } else if v.Object? && path[0].Key? {
        KeyCommutes(h, v, hv, memo, host, path);
      }
    }
  }

  lemma {:induction false} KeyCommutes(h: Heap, v: Value, hv: HostValue, memo: Memo, host: HostHeap, path: seq<Access>)
    requires Closed(h) && UniqueKeys(h) && Typed(h, v) && v.Object? && path != [] && path[0].Key?
    requires Same(v, hv, memo) && forall l | l in memo :: Matched(h, memo, host, l)
    ensures Get(h, v, path).Some? <==> HostGet(host, hv, path).Some?
    ensures Get(h, v, path).Some? ==> Same(Get(h, v, path).value, HostGet(host, hv, path).value, memo)
    decreases |path|, 0
  {
    assert Matched(h, memo, host, v.at);
    assert TypedCell(h, h[v.at]);
    var props, k := h[v.at].props, path[0].k;
    if exists i: nat :: HasKey(props, k, i) {
      var i: nat :| HasKey(props, k, i) && Get(h, v, path) == Get(h, props[i].value, path[1..]);
      assert Stored(props, i, |props|, host[hv.id].props, memo) && Last(props, i, |props|);
      PathsCommute(h, props[i].value, host[hv.id].props[k], memo, host, path[1..]);
    } else if k in host[hv.id].props {
      assert Sourced(props, |props|, k);
      var i :| 0 <= i < |props| && Visible(props[i]) && props[i].key == k;
      assert HasKey(props, k, i);
    }
  }

  // Sharing and cycles survive: two paths meet in one container exactly when their images do.
  lemma SharingPreserved(h: Heap, v: Value, hv: HostValue, memo: Memo, host: HostHeap, a: seq<Access>, b: seq<Access>)
    requires Closed(h) && UniqueKeys(h) && Typed(h, v) && Isomorphic(h, v, hv, memo, host)
    requires Get(h, v, a).Some? && Get(h, v, b).Some?
    requires Container(Get(h, v, a).value) && Container(Get(h, v, b).value)
    ensures HostGet(host, hv, a).Some? && HostGet(host, hv, b).Some?
    ensures Get(h, v, a) == Get(h, v, b) <==> HostGet(host, hv, a) == HostGet(host, hv, b)
  {
    PathsCommute(h, v, hv, memo, host, a);
    PathsCommute(h, v, hv, memo, host, b);
  }
}
