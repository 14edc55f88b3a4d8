/**
 The owned wire form of a guest value: `from_value` unfolds a heap graph, refusing
 cycles with the set of containers on the current path, and `into_value` builds a
 fresh graph again.
 */
module Wire {
  import opened Wrappers
  import opened GuestHeap

  datatype Wire =
    | WUndefined | WNull | WBool(b: bool) | WNumber(bits: int) | WString(text: string)
    | WArray(items: seq<Wire>) | WObject(props: seq<Field>)
    | WError(name: string, message: string)

  datatype Field = Field(key: string, value: Wire)

  datatype WireError = TooDeep | Cyclic | LongString | LongArray | ManyProps | LongKey

  function Room(depth: nat): nat {
    if depth > MAX_MARSHAL_DEPTH then 0 else MAX_MARSHAL_DEPTH + 1 - depth
  }

  // ---------------------------------------------------------------------
  // The walker as a function of the path so far
  // ---------------------------------------------------------------------

  function FromValue(h: Heap, v: Value, depth: nat, active: set<Loc>): Result<Wire, WireError>
    requires Closed(h) && Typed(h, v)
    decreases Room(depth), 0, 0
  {
    if depth > MAX_MARSHAL_DEPTH then Err(TooDeep)
    else
      match v
      case Undefined => Ok(WUndefined)
      case Null => Ok(WNull)
      case Bool(b) => Ok(WBool(b))
      case Number(bits) => Ok(WNumber(bits))
      case String(text) => if |text| > MAX_STRING_LEN then Err(LongString) else Ok(WString(text))
      case Error(name, message) => Ok(WError(name, message))
      case Opaque => Ok(WUndefined)
      case Array(at) =>
        if at in active then Err(Cyclic)
        else if |h[at].items| > MAX_ARRAY_LEN then Err(LongArray)
        else
          assert TypedCell(h, h[at]);
          var r := FromItems(h, h[at].items, depth + 1, active + {at});
          if r.Ok? then Ok(WArray(r.value)) else Err(r.error)
      case Object(at) =>
        if at in active then Err(Cyclic)
        else if |h[at].props| > MAX_OBJECT_PROPS then Err(ManyProps)
        else
          assert TypedCell(h, h[at]);
          var r := FromProps(h, h[at].props, depth + 1, active + {at});
          if r.Ok? then Ok(WObject(r.value)) else Err(r.error)
  }

  function FromItems(h: Heap, items: seq<Value>, depth: nat, active: set<Loc>): Result<seq<Wire>, WireError>
    requires Closed(h) && forall i | 0 <= i < |items| :: Typed(h, items[i])
    decreases Room(depth), 1, |items|
  {
    if items == [] then Ok([])
    else
      var front := FromItems(h, items[..|items| - 1], depth, active);
      if front.Err? then front
      else
        match FromValue(h, items[|items| - 1], depth, active)
        case Ok(w) => Ok(front.value + [w])
        case Err(e) => Err(e)
  }

  function FromProps(h: Heap, props: seq<Property>, depth: nat, active: set<Loc>): Result<seq<Field>, WireError>
    requires Closed(h) && forall i | 0 <= i < |props| :: Typed(h, props[i].value)
    decreases Room(depth), 1, |props|
  {
    if props == [] then Ok([])
    else
      var front := FromProps(h, props[..|props| - 1], depth, active);
      var last := props[|props| - 1];
      if front.Err? then front
      else if |last.key| > MAX_STRING_LEN then Err(LongKey)
      else
        match FromValue(h, last.value, depth, active)
        case Ok(w) => Ok(front.value + [Field(last.key, w)])
        case Err(e) => Err(e)
  }

  /** The walker as it runs: one active set, changed on the way down and restored on every exit. */
  class Walker {
    const heap: Heap
    var active: set<Loc>

    constructor (heap: Heap)
      ensures this.heap == heap && active == {}
    {
      this.heap := heap;
      active := {};
    }

    method Walk(v: Value, depth: nat) returns (r: Result<Wire, WireError>)
      requires Closed(heap) && Typed(heap, v)
      modifies this
      ensures active == old(active)
      ensures r == FromValue(heap, v, depth, old(active))
      decreases Room(depth), 1
    {
      if depth > MAX_MARSHAL_DEPTH {
        return Err(TooDeep);
      }
      match v
      case Undefined => r := Ok(WUndefined);
      case Null => r := Ok(WNull);
      case Bool(b) => r := Ok(WBool(b));
      case Number(bits) => r := Ok(WNumber(bits));
      case String(text) => r := if |text| > MAX_STRING_LEN then Err(LongString) else Ok(WString(text));
      case Error(name, message) => r := Ok(WError(name, message));
      case Opaque => r := Ok(WUndefined);
      case Array(at) => r := WalkArray(at, depth);
      case Object(at) => r := WalkObject(at, depth);
    }

    method WalkArray(at: Loc, depth: nat) returns (r: Result<Wire, WireError>)
      requires Closed(heap) && Typed(heap, Array(at)) && depth <= MAX_MARSHAL_DEPTH
      modifies this
      ensures active == old(active)
      ensures r == FromValue(heap, Array(at), depth, old(active))
      decreases Room(depth), 0
    {
      if at in active {
        return Err(Cyclic);
      }
      active := active + {at};
      var items := heap[at].items;
      assert TypedCell(heap, heap[at]);
      if |items| > MAX_ARRAY_LEN {
        active := active - {at};
        return Err(LongArray);
      }
      var ws := WalkItems(items, depth + 1);
      active := active - {at};
      r := if ws.Ok? then Ok(WArray(ws.value)) else Err(ws.error);
    }

    // The elements in order, up to the first one that does not cross.
    method WalkItems(items: seq<Value>, depth: nat) returns (r: Result<seq<Wire>, WireError>)
      requires Closed(heap) && forall i | 0 <= i < |items| :: Typed(heap, items[i])
      modifies this
      ensures active == old(active)
      ensures r == FromItems(heap, items, depth, old(active))
      decreases Room(depth), 2
    {
      var ws: seq<Wire> := [];
      var i := 0;
      while i < |items|
        invariant 0 <= i <= |items| && active == old(active)
        invariant FromItems(heap, items[..i], depth, old(active)) == Ok(ws)
      {
        assert items[..i + 1][..i] == items[..i];
        var w := Walk(items[i], depth);
        if w.Err? {
          ItemsFail(heap, items, i + 1, depth, old(active));
          return Err(w.error);
        }
        ws := ws + [w.value];
        i := i + 1;
      }
      assert items[..|items|] == items;
      r := Ok(ws);
    }

    method WalkObject(at: Loc, depth: nat) returns (r: Result<Wire, WireError>)
      requires Closed(heap) && Typed(heap, Object(at)) && depth <= MAX_MARSHAL_DEPTH
      modifies this
      ensures active == old(active)
      ensures r == FromValue(heap, Object(at), depth, old(active))
      decreases Room(depth), 0
    {
      if at in active {
        return Err(Cyclic);
      }
      active := active + {at};
      var props := heap[at].props;
      assert TypedCell(heap, heap[at]);
      if |props| > MAX_OBJECT_PROPS {
        active := active - {at};
        return Err(ManyProps);
      }
      var ps := WalkProps(props, depth + 1);
      active := active - {at};
      r := if ps.Ok? then Ok(WObject(ps.value)) else Err(ps.error);
    }

    // The properties in order, up to the first one that does not cross.
    method WalkProps(props: seq<Property>, depth: nat) returns (r: Result<seq<Field>, WireError>)
      requires Closed(heap) && forall i | 0 <= i < |props| :: Typed(heap, props[i].value)
      modifies this
      ensures active == old(active)
      ensures r == FromProps(heap, props, depth, old(active))
      decreases Room(depth), 2
    {
      var ps: seq<Field> := [];
      var i := 0;
      while i < |props|
        invariant 0 <= i <= |props| && active == old(active)
        invariant FromProps(heap, props[..i], depth, old(active)) == Ok(ps)
      {
        assert props[..i + 1][..i] == props[..i];
        if |props[i].key| > MAX_STRING_LEN {
          PropsFail(heap, props, i + 1, depth, old(active));
          return Err(LongKey);
        }
        var w := Walk(props[i].value, depth);
        if w.Err? {
          PropsFail(heap, props, i + 1, depth, old(active));
          return Err(w.error);
        }
        ps := ps + [Field(props[i].key, w.value)];
        i := i + 1;
      }
      assert props[..|props|] == props;
      r := Ok(ps);
    }
  }

  // An error in a prefix is the error of the whole list.
  lemma {:induction false} ItemsFail(h: Heap, items: seq<Value>, n: nat, depth: nat, active: set<Loc>)
    requires Closed(h) && (forall i | 0 <= i < |items| :: Typed(h, items[i])) && n <= |items|
    requires FromItems(h, items[..n], depth, active).Err?
    ensures FromItems(h, items, depth, active) == FromItems(h, items[..n], depth, active)
    decreases |items| - n
  {
    if n == |items| {
      assert items[..n] == items;
    } else {
      assert items[..n + 1][..n] == items[..n];
      ItemsFail(h, items, n + 1, depth, active);
    }
  }

  lemma {:induction false} PropsFail(h: Heap, props: seq<Property>, n: nat, depth: nat, active: set<Loc>)
    requires Closed(h) && (forall i | 0 <= i < |props| :: Typed(h, props[i].value)) && n <= |props|
    requires FromProps(h, props[..n], depth, active).Err?
    ensures FromProps(h, props, depth, active) == FromProps(h, props[..n], depth, active)
    decreases |props| - n
  {
    if n == |props| {
      assert props[..n] == props;
    } else {
      assert props[..n + 1][..n] == props[..n];
      PropsFail(h, props, n + 1, depth, active);
    }
  }

  // ---------------------------------------------------------------------
  // What a wire value means: the finite unfolding of a guest value
  // ---------------------------------------------------------------------

  predicate Unfolds(h: Heap, v: Value, w: Wire)
    decreases w
  {
    match w
    case WUndefined => v.Undefined? || v.Opaque?
    case WNull => v.Null?
    case WBool(b) => v == Bool(b)
    case WNumber(bits) => v == Number(bits)
    case WString(text) => v == String(text)
    case WError(name, message) => v == Error(name, message)
    case WArray(ws) =>
      && v.Array? && v.at in h && h[v.at].Items? && |h[v.at].items| == |ws|
      && forall i | 0 <= i < |ws| :: Unfolds(h, h[v.at].items[i], ws[i])
    case WObject(ps) =>
      && v.Object? && v.at in h && h[v.at].Props? && |h[v.at].props| == |ps|
      && forall i | 0 <= i < |ps| ::
          h[v.at].props[i].key == ps[i].key && Unfolds(h, h[v.at].props[i].value, ps[i].value)
  }

  // Within the depth and size limits when it sits at depth `depth`.
  predicate Fits(w: Wire, depth: nat)
    decreases w
  {
    && depth <= MAX_MARSHAL_DEPTH
    && match w
       case WString(text) => |text| <= MAX_STRING_LEN
       case WArray(ws) => |ws| <= MAX_ARRAY_LEN && forall i | 0 <= i < |ws| :: Fits(ws[i], depth + 1)
       case WObject(ps) =>
         && |ps| <= MAX_OBJECT_PROPS
         && forall i | 0 <= i < |ps| :: |ps[i].key| <= MAX_STRING_LEN && Fits(ps[i].value, depth + 1)
       case _ => true
  }

  // ---------------------------------------------------------------------
  // Success is an unfolding within the limits
  // ---------------------------------------------------------------------

  lemma {:induction false} Sound(h: Heap, v: Value, depth: nat, active: set<Loc>)
    requires Closed(h) && Typed(h, v) && FromValue(h, v, depth, active).Ok?
    ensures Unfolds(h, v, FromValue(h, v, depth, active).value)
    ensures Fits(FromValue(h, v, depth, active).value, depth)
    decreases Room(depth), 0, 0
  {
    if v.Array? {
      assert TypedCell(h, h[v.at]);
      SoundItems(h, h[v.at].items, depth + 1, active + {v.at});
    } else if v.Object? {
      assert TypedCell(h, h[v.at]);
      SoundProps(h, h[v.at].props, depth + 1, active + {v.at});
    }
  }

  lemma {:induction false} SoundItems(h: Heap, items: seq<Value>, depth: nat, active: set<Loc>)
    requires Closed(h) && (forall i | 0 <= i < |items| :: Typed(h, items[i])) && FromItems(h, items, depth, active).Ok?
    ensures var ws := FromItems(h, items, depth, active).value;
            |ws| == |items| && forall i | 0 <= i < |ws| :: Unfolds(h, items[i], ws[i]) && Fits(ws[i], depth)
    decreases Room(depth), 1, |items|
  {
    if items != [] {
      SoundItems(h, items[..|items| - 1], depth, active);
      Sound(h, items[|items| - 1], depth, active);
    }
  }

  lemma {:induction false} SoundProps(h: Heap, props: seq<Property>, depth: nat, active: set<Loc>)
    requires Closed(h) && (forall i | 0 <= i < |props| :: Typed(h, props[i].value))
             && FromProps(h, props, depth, active).Ok?
    ensures var ps := FromProps(h, props, depth, active).value;
            |ps| == |props| && forall i | 0 <= i < |ps| ::
              props[i].key == ps[i].key && |ps[i].key| <= MAX_STRING_LEN && Unfolds(h, props[i].value, ps[i].value)
                  && Fits(ps[i].value, depth)
    decreases Room(depth), 1, |props|
  {
    if props != [] {
      SoundProps(h, props[..|props| - 1], depth, active);
      Sound(h, props[|props| - 1].value, depth, active);
    }
  }

  // ---------------------------------------------------------------------
  // Failure is a bad walk
  // ---------------------------------------------------------------------

  // The number of values the cell at `at` holds, and each of them.
  function Arity(h: Heap, at: Loc): nat
    requires at in h
  {
    match h[at]
    case Items(items) => |items|
    case Props(props) => |props|
  }

  function Child(h: Heap, at: Loc, i: nat): Value
    requires at in h && i < Arity(h, at)
  {
    match h[at]
    case Items(items) => items[i]
    case Props(props) => props[i].value
  }

  // Going from `v` down through the containers `p`, in order, one arrives at `u`.
  ghost predicate Walk(h: Heap, v: Value, p: seq<Loc>, u: Value)
    decreases |p|
  {
    if p == [] then u == v
    else Container(v) && v.at == p[0] && p[0] in h
         && exists i: nat :: i < Arity(h, p[0]) && Walk(h, Child(h, p[0], i), p[1..], u)
  }

  // Why a value at depth `depth`, below the containers `seen`, cannot cross.
  predicate Bad(h: Heap, u: Value, depth: nat, seen: set<Loc>) {
    || depth > MAX_MARSHAL_DEPTH
    || (u.String? && |u.text| > MAX_STRING_LEN)
    || (Container(u) && u.at in seen)
    || (u.Array? && u.at in h && Arity(h, u.at) > MAX_ARRAY_LEN)
    || (u.Object? && u.at in h && h[u.at].Props?
        && (|h[u.at].props| > MAX_OBJECT_PROPS || exists i | 0 <= i < |h[u.at].props| ::
            |h[u.at].props[i].key| > MAX_STRING_LEN))
  }

  function Elements(p: seq<Loc>): (r: set<Loc>)
    ensures forall l :: l in r <==> l in p
  {
    set l | l in p
  }

  ghost predicate BadWalk(h: Heap, v: Value, p: seq<Loc>, u: Value, depth: nat, active: set<Loc>) {
    Walk(h, v, p, u) && Bad(h, u, depth + |p|, active + Elements(p))
  }

  lemma {:induction false} FailureIsBadWalk(h: Heap, v: Value, depth: nat, active: set<Loc>)
      returns (p: seq<Loc>, u: Value)
    requires Closed(h) && Typed(h, v) && FromValue(h, v, depth, active).Err?
    ensures BadWalk(h, v, p, u, depth, active)
    decreases Room(depth), 0, 0
  {
    p, u := [], v;
    if depth <= MAX_MARSHAL_DEPTH && Container(v) && !Bad(h, v, depth, active) {
      assert TypedCell(h, h[v.at]);
      var q: seq<Loc>;
      if v.Array? {
        q, u := ItemsBadWalk(h, h[v.at].items, depth + 1, active + {v.at}, v.at);
      } else {
        q, u := PropsBadWalk(h, h[v.at].props, depth + 1, active + {v.at}, v.at);
      }
      p := [v.at] + q;
      assert p[1..] == q;
      assert active + {v.at} + Elements(q) == active + Elements(p);
    } else {
      assert active + Elements(p) == active;
    }
  }

  lemma {:induction false} ItemsBadWalk(h: Heap, items: seq<Value>, depth: nat, active: set<Loc>, at: Loc)
    returns (q: seq<Loc>, u: Value)
    requires Closed(h) && (forall i | 0 <= i < |items| :: Typed(h, items[i])) && FromItems(h, items, depth, active).Err?
    requires at in h && h[at].Items? && items <= h[at].items
    ensures exists i: nat :: i < Arity(h, at) && Walk(h, Child(h, at, i), q, u)
    ensures Bad(h, u, depth + |q|, active + Elements(q))
    decreases Room(depth), 1, |items|
  {
    var n := |items| - 1;
    if FromItems(h, items[..n], depth, active).Err? {
      q, u := ItemsBadWalk(h, items[..n], depth, active, at);
    } else {
      q, u := FailureIsBadWalk(h, items[n], depth, active);
      assert Walk(h, Child(h, at, n), q, u);
    }
  }

  lemma {:induction false} PropsBadWalk(h: Heap, props: seq<Property>, depth: nat, active: set<Loc>, at: Loc)
    returns (q: seq<Loc>, u: Value)
    requires Closed(h) && (forall i | 0 <= i < |props| :: Typed(h, props[i].value))
             && FromProps(h, props, depth, active).Err?
    requires at in h && h[at].Props? && props <= h[at].props
    requires forall i | 0 <= i < |h[at].props| :: |h[at].props[i].key| <= MAX_STRING_LEN
    ensures exists i: nat :: i < Arity(h, at) && Walk(h, Child(h, at, i), q, u)
    ensures Bad(h, u, depth + |q|, active + Elements(q))
    decreases Room(depth), 1, |props|
  {
    var n := |props| - 1;
    if FromProps(h, props[..n], depth, active).Err? {
      q, u := PropsBadWalk(h, props[..n], depth, active, at);
    } else {
      assert props[n].key == h[at].props[n].key;
      q, u := FailureIsBadWalk(h, props[n].value, depth, active);
      assert Walk(h, Child(h, at, n), q, u);
    }
  }

  // ---------------------------------------------------------------------
  // Exactly when a value crosses
  // ---------------------------------------------------------------------

  function Size(w: Wire): nat
    decreases w
  {
    1 + match w
        case WArray(ws) => SizeItems(ws)
        case WObject(ps) => SizeProps(ps)
        case _ => 0
  }

  function SizeItems(ws: seq<Wire>): (n: nat)
    ensures forall i | 0 <= i < |ws| :: Size(ws[i]) <= n
    decreases ws
  {
    if ws == [] then 0 else Size(ws[0]) + SizeItems(ws[1..])
  }

  function SizeProps(ps: seq<Field>): (n: nat)
    ensures forall i | 0 <= i < |ps| :: Size(ps[i].value) <= n
    decreases ps
  {
    if ps == [] then 0 else Size(ps[0].value) + SizeProps(ps[1..])
  }

  lemma {:induction false} UnfoldingUnique(h: Heap, v: Value, w: Wire, w': Wire)
    requires Unfolds(h, v, w) && Unfolds(h, v, w')
    ensures w == w'
    decreases w
  {
    match w
    case WArray(ws) =>
      forall i | 0 <= i < |ws| ensures ws[i] == w'.items[i] {
        UnfoldingUnique(h, h[v.at].items[i], ws[i], w'.items[i]);
      }
      assert ws == w'.items;
    case WObject(ps) =>
      forall i | 0 <= i < |ps| ensures ps[i] == w'.props[i] {
        UnfoldingUnique(h, h[v.at].props[i].value, ps[i].value, w'.props[i].value);
      }
      assert ps == w'.props;
    case _ =>
  }

  // A direct part of a wire value.
  predicate Part(w: Wire, x: Wire) {
    match w
    case WArray(ws) => x in ws
    case WObject(ps) => exists i | 0 <= i < |ps| :: ps[i].value == x
    case _ => false
  }

  lemma PartIsSmaller(w: Wire, x: Wire, depth: nat)
    requires Part(w, x)
    ensures Size(x) < Size(w)
    ensures Fits(w, depth) ==> Fits(x, depth + 1)
  {
  }

  lemma ChildUnfolds(h: Heap, v: Value, w: Wire, i: nat) returns (x: Wire)
    requires Unfolds(h, v, w) && Container(v) && v.at in h && i < Arity(h, v.at)
    ensures Part(w, x) && Unfolds(h, Child(h, v.at, i), x)
  {
    x := if w.WArray? then w.items[i] else w.props[i].value;
  }

  lemma FirstStep(h: Heap, v: Value, p: seq<Loc>, u: Value) returns (i: nat)
    requires p != [] && Walk(h, v, p, u)
    ensures Container(v) && v.at == p[0] && v.at in h && i < Arity(h, v.at) && Walk(h, Child(h, v.at, i), p[1..], u)
  {
    i :| i < Arity(h, p[0]) && Walk(h, Child(h, p[0], i), p[1..], u);
  }

  // `x` is `n` parts below `w`.
  ghost predicate Below(w: Wire, x: Wire, n: nat)
    decreases n
  {
    if n == 0 then x == w else exists y :: Part(w, y) && Below(y, x, n - 1)
  }

  lemma {:induction false} BelowFacts(w: Wire, x: Wire, n: nat, depth: nat)
    requires Below(w, x, n)
    ensures Size(x) + n <= Size(w)
    ensures Fits(w, depth) ==> Fits(x, depth + n)
    decreases n
  {
    if n > 0 {
      var y :| Part(w, y) && Below(y, x, n - 1);
      PartIsSmaller(w, y, depth);
      BelowFacts(y, x, n - 1, depth + 1);
    }
  }

  // A walk below an unfolded value stays inside the unfolding, one part deeper each step.
  lemma {:induction false} WalkInside(h: Heap, v: Value, w: Wire, p: seq<Loc>, u: Value) returns (x: Wire)
    requires Unfolds(h, v, w) && Walk(h, v, p, u)
    ensures Unfolds(h, u, x) && Below(w, x, |p|)
    decreases |p|
  {
    if p == [] {
      x := w;
    } else {
      var i := FirstStep(h, v, p, u);
      var part := ChildUnfolds(h, v, w, i);
      x := WalkInside(h, Child(h, v.at, i), part, p[1..], u);
    }
  }

  lemma {:induction false} SplitWalk(h: Heap, v: Value, p: seq<Loc>, u: Value, k: nat) returns (m: Value)
    requires Walk(h, v, p, u) && k < |p|
    ensures Container(m) && m.at == p[k] && m.at in h && Walk(h, v, p[..k], m) && Walk(h, m, p[k..], u)
    decreases |p|
  {
    if k == 0 {
      m := v;
      assert p[0..] == p;
    } else {
      var i: nat :| i < Arity(h, p[0]) && Walk(h, Child(h, p[0], i), p[1..], u);
      m := SplitWalk(h, Child(h, p[0], i), p[1..], u, k - 1);
      assert p[..k][1..] == p[1..][..k - 1];
      assert p[1..][k - 1..] == p[k..];
    }
  }

  lemma WalkDown(h: Heap, v: Value, w: Wire, p: seq<Loc>, u: Value, depth: nat) returns (x: Wire)
    requires Unfolds(h, v, w) && Walk(h, v, p, u)
    ensures Unfolds(h, u, x) && Size(x) + |p| <= Size(w)
    ensures Fits(w, depth) ==> Fits(x, depth + |p|)
  {
    x := WalkInside(h, v, w, p, u);
    BelowFacts(w, x, |p|, depth);
  }

  // A container address is used as an array or as an object, not both.
  lemma SameContainer(h: Heap, m: Value, u: Value, y: Wire, z: Wire)
    requires Unfolds(h, m, y) && Unfolds(h, u, z) && Container(m) && Container(u) && m.at == u.at
    ensures m == u
  {
  }

  lemma NoLoop(h: Heap, m: Value, y: Wire, p: seq<Loc>, u: Value)
    requires Unfolds(h, m, y) && Walk(h, m, p, u) && p != [] && Container(m) && Container(u)
    ensures m.at != u.at
  {
    var z := WalkDown(h, m, y, p, u, 0);
    if m.at == u.at {
      SameContainer(h, m, u, y, z);
      UnfoldingUnique(h, m, y, z);
    }
  }

  // An unfolded value never comes back to a container above it.
  lemma NoReturn(h: Heap, v: Value, w: Wire, p: seq<Loc>, u: Value, k: nat)
    requires Unfolds(h, v, w) && Walk(h, v, p, u) && k < |p| && Container(u)
    ensures u.at != p[k]
  {
    var m := SplitWalk(h, v, p, u, k);
    var y := WalkDown(h, v, w, p[..k], m, 0);
    NoLoop(h, m, y, p[k..], u);
  }

  lemma Unrepeated(h: Heap, v: Value, w: Wire, p: seq<Loc>, u: Value)
    requires Unfolds(h, v, w) && Walk(h, v, p, u)
    ensures !(Container(u) && u.at in Elements(p))
  {
    if Container(u) && u.at in Elements(p) {
      var k :| 0 <= k < |p| && p[k] == u.at;
      NoReturn(h, v, w, p, u, k);
    }
  }

  // What unfolds within the limits is not bad where it stands, unless it repeats a container.
  lemma NotBad(h: Heap, u: Value, x: Wire, depth: nat, seen: set<Loc>)
    requires Unfolds(h, u, x) && Fits(x, depth) && !(Container(u) && u.at in seen)
    ensures !Bad(h, u, depth, seen)
  {
  }

  lemma NoBadWalk(h: Heap, v: Value, w: Wire, p: seq<Loc>, u: Value)
    requires Unfolds(h, v, w) && Fits(w, 0)
    ensures !BadWalk(h, v, p, u, 0, {})
  {
    if Walk(h, v, p, u) {
      var x := WalkDown(h, v, w, p, u, 0);
      Unrepeated(h, v, w, p, u);
      assert {} + Elements(p) == Elements(p);
      NotBad(h, u, x, 0 + |p|, {} + Elements(p));
    }
  }

  // from_value returns `w` exactly when `w` is the unfolding of the value and
  // fits the limits; it fails exactly when some walk from the value comes back to
  // a container it went through, goes too deep, or meets something oversized.
  lemma CrossesExactly(h: Heap, v: Value)
    requires Closed(h) && Typed(h, v)
    ensures forall w :: FromValue(h, v, 0, {}) == Ok(w) <==> Unfolds(h, v, w) && Fits(w, 0)
    ensures FromValue(h, v, 0, {}).Err? <==> exists p, u :: BadWalk(h, v, p, u, 0, {})
  {
    var r := FromValue(h, v, 0, {});
    if r.Ok? {
      Sound(h, v, 0, {});
      forall w | Unfolds(h, v, w) ensures w == r.value {
        UnfoldingUnique(h, v, w, r.value);
      }
      forall p, u ensures !BadWalk(h, v, p, u, 0, {}) {
        NoBadWalk(h, v, r.value, p, u);
      }
    } else {
      var p, u := FailureIsBadWalk(h, v, 0, {});
      assert BadWalk(h, v, p, u, 0, {});
      forall w ensures !(Unfolds(h, v, w) && Fits(w, 0)) {
        if Unfolds(h, v, w) && Fits(w, 0) {
          NoBadWalk(h, v, w, p, u);
        }
      }
    }
  }

  // A value that reaches itself never crosses.
  lemma CyclesNeverCross(h: Heap, v: Value, p: seq<Loc>)
    requires Closed(h) && Typed(h, v) && Container(v) && p != [] && Walk(h, v, p, v)
    ensures FromValue(h, v, 0, {}).Err?
  {
    assert v.at == p[0];
    assert BadWalk(h, v, p, v, 0, {});
    CrossesExactly(h, v);
  }

  // ---------------------------------------------------------------------
  // Back to a guest value
  // ---------------------------------------------------------------------

  // A heap under construction: `next` is the address of the next container.
  datatype Arena = Arena(heap: Heap, next: Loc)

  function IntoValue(w: Wire, a: Arena): (Value, Arena)
    decreases w
  {
    match w
    case WUndefined => (Undefined, a)
    case WNull => (Null, a)
    case WBool(b) => (Bool(b), a)
    case WNumber(bits) => (Number(bits), a)
    case WString(text) => (String(text), a)
    case WError(name, message) => (Error(name, message), a)
    case WArray(ws) =>
      var (items, b) := IntoItems(ws, a);
      (Array(b.next), Arena(b.heap[b.next := Items(items)], b.next + 1))
    case WObject(ps) =>
      var (props, b) := IntoProps(ps, a);
      (Object(b.next), Arena(b.heap[b.next := Props(props)], b.next + 1))
  }

  function IntoItems(ws: seq<Wire>, a: Arena): (seq<Value>, Arena)
    decreases ws
  {
    if ws == [] then ([], a)
    else
      var (front, b) := IntoItems(ws[..|ws| - 1], a);
      var (last, c) := IntoValue(ws[|ws| - 1], b);
      (front + [last], c)
  }

  function IntoProps(ps: seq<Field>, a: Arena): (seq<Property>, Arena)
    decreases ps
  {
    if ps == [] then ([], a)
    else
      var (front, b) := IntoProps(ps[..|ps| - 1], a);
      var (last, c) := IntoValue(ps[|ps| - 1].value, b);
      (front + [Property(ps[|ps| - 1].key, last, true)], c)
  }

  ghost predicate Sane(a: Arena) {
    Closed(a.heap) && forall l | l in a.heap :: l < a.next
  }

  ghost predicate Grows(a: Arena, b: Arena) {
    && a.next <= b.next
    && (forall l | l in a.heap :: l in b.heap && b.heap[l] == a.heap[l])
  }

  lemma {:induction false} UnfoldsGrows(a: Arena, b: Arena, v: Value, w: Wire)
    requires Grows(a, b) && Unfolds(a.heap, v, w)
    ensures Unfolds(b.heap, v, w)
    decreases w
  {
    match w
    case WArray(ws) =>
      forall i | 0 <= i < |ws| ensures Unfolds(b.heap, b.heap[v.at].items[i], ws[i]) {
        UnfoldsGrows(a, b, a.heap[v.at].items[i], ws[i]);
      }
    case WObject(ps) =>
      forall i | 0 <= i < |ps| ensures Unfolds(b.heap, b.heap[v.at].props[i].value, ps[i].value) {
        UnfoldsGrows(a, b, a.heap[v.at].props[i].value, ps[i].value);
      }
    case _ =>
  }

  // One more cell, at a fresh address.
  lemma AddCell(a: Arena, c: Cell)
    requires Sane(a) && TypedCell(a.heap, c)
    ensures var b := Arena(a.heap[a.next := c], a.next + 1); Sane(b) && Grows(a, b)
  {
    var b := Arena(a.heap[a.next := c], a.next + 1);
    forall l | l in b.heap ensures TypedCell(b.heap, b.heap[l]) {
      assert TypedCell(a.heap, b.heap[l]);
    }
  }

  lemma {:induction false} IntoUnfolds(w: Wire, a: Arena)
    requires Sane(a)
    ensures var (v, b) := IntoValue(w, a); Sane(b) && Grows(a, b) && Typed(b.heap, v) && Unfolds(b.heap, v, w)
    decreases w
  {
    match w
    case WArray(ws) =>
      IntoItemsUnfold(ws, a);
      var (items, b) := IntoItems(ws, a);
      var c := Arena(b.heap[b.next := Items(items)], b.next + 1);
      AddCell(b, Items(items));
      forall i | 0 <= i < |ws| ensures Unfolds(c.heap, items[i], ws[i]) {
        UnfoldsGrows(b, c, items[i], ws[i]);
      }
    case WObject(ps) =>
      IntoPropsUnfold(ps, a);
      var (props, b) := IntoProps(ps, a);
      var c := Arena(b.heap[b.next := Props(props)], b.next + 1);
      AddCell(b, Props(props));
      forall i | 0 <= i < |ps| ensures Unfolds(c.heap, props[i].value, ps[i].value) {
        UnfoldsGrows(b, c, props[i].value, ps[i].value);
      }
    case _ =>
  }

  lemma {:induction false} IntoItemsUnfold(ws: seq<Wire>, a: Arena)
    requires Sane(a)
    ensures var (vs, b) := IntoItems(ws, a);
            && Sane(b) && Grows(a, b) && |vs| == |ws|
            && forall i | 0 <= i < |ws| :: Typed(b.heap, vs[i]) && Unfolds(b.heap, vs[i], ws[i])
    decreases ws
  {
    if ws != [] {
      var n := |ws| - 1;
      IntoItemsUnfold(ws[..n], a);
      var (front, b) := IntoItems(ws[..n], a);
      IntoUnfolds(ws[n], b);
      var (last, c) := IntoValue(ws[n], b);
      forall i | 0 <= i < n ensures Unfolds(c.heap, front[i], ws[i]) && Typed(c.heap, front[i]) {
        UnfoldsGrows(b, c, front[i], ws[..n][i]);
      }
    }
  }

  lemma {:induction false} IntoPropsUnfold(ps: seq<Field>, a: Arena)
    requires Sane(a)
    ensures var (qs, b) := IntoProps(ps, a);
            && Sane(b) && Grows(a, b) && |qs| == |ps|
            && forall i | 0 <= i < |ps| ::
                qs[i].key == ps[i].key && Typed(b.heap, qs[i].value) && Unfolds(b.heap, qs[i].value, ps[i].value)
    decreases ps
  {
    if ps != [] {
      var n := |ps| - 1;
      IntoPropsUnfold(ps[..n], a);
      var (front, b) := IntoProps(ps[..n], a);
      IntoUnfolds(ps[n].value, b);
      var (last, c) := IntoValue(ps[n].value, b);
      forall i | 0 <= i < n
        ensures front[i].key == ps[i].key && Unfolds(c.heap, front[i].value, ps[i].value)
                && Typed(c.heap, front[i].value)
      {
        assert ps[..n][i] == ps[i];
        UnfoldsGrows(b, c, front[i].value, ps[..n][i].value);
      }
    }
  }

  // The round trip returns the very wire value exactly when it is within the
  // limits, repeated property keys included.
  lemma RoundTrip(w: Wire, a: Arena)
    requires Sane(a)
    ensures var (v, b) := IntoValue(w, a);
            && Closed(b.heap) && Typed(b.heap, v)
            && (FromValue(b.heap, v, 0, {}) == Ok(w) <==> Fits(w, 0))
  {
    IntoUnfolds(w, a);
    var (v, b) := IntoValue(w, a);
    CrossesExactly(b.heap, v);
  }
}
