/**
 A wire value that arrives on the guest side and leaves it again: what the guest object
 built from it is, and what the host sees of its copy.
 */
module WireToHost {
  import opened Wrappers
  import opened GuestHeap
  import W = Wire
  import M = Marshal

  // ---------------------------------------------------------------------
  // The guest value
  // ---------------------------------------------------------------------

  // `v` unfolds to `w` by ordinary containers: every property is enumerable, and the keys are the
  // wire's in order.
  ghost predicate Builds(h: Heap, v: Value, w: W.Wire)
    decreases w
  {
    && W.Unfolds(h, v, w)
    && match w
       case WUndefined => v.Undefined?
       case WArray(ws) => forall i | 0 <= i < |ws| :: Builds(h, h[v.at].items[i], ws[i])
       case WObject(ps) =>
         forall i | 0 <= i < |ps| :: h[v.at].props[i].enumerable && Builds(h, h[v.at].props[i].value, ps[i].value)
       case _ => true
  }

  lemma {:induction false} BuildsGrows(a: W.Arena, b: W.Arena, v: Value, w: W.Wire)
    requires W.Grows(a, b) && Builds(a.heap, v, w)
    ensures Builds(b.heap, v, w)
    decreases w
  {
    W.UnfoldsGrows(a, b, v, w);
    match w
    case WArray(ws) =>
      forall i | 0 <= i < |ws| ensures Builds(b.heap, b.heap[v.at].items[i], ws[i]) {
        BuildsGrows(a, b, a.heap[v.at].items[i], ws[i]);
      }
    case WObject(ps) =>
      forall i | 0 <= i < |ps| ensures Builds(b.heap, b.heap[v.at].props[i].value, ps[i].value) {
        BuildsGrows(a, b, a.heap[v.at].props[i].value, ps[i].value);
      }
    case _ =>
  }

  // The value that arrives is built of ordinary containers.
  lemma {:induction false} IntoBuilds(w: W.Wire, a: W.Arena)
    requires W.Sane(a)
    ensures Builds(W.IntoValue(w, a).1.heap, W.IntoValue(w, a).0, w)
    decreases w
  {
    W.IntoUnfolds(w, a);
    match w
    case WArray(ws) =>
      IntoItemsBuild(ws, a);
      W.IntoItemsUnfold(ws, a);
      var (items, b) := W.IntoItems(ws, a);
      W.AddCell(b, Items(items));
      forall i | 0 <= i < |ws| ensures Builds(b.heap[b.next := Items(items)], items[i], ws[i]) {
        BuildsGrows(b, W.Arena(b.heap[b.next := Items(items)], b.next + 1), items[i], ws[i]);
      }
    case WObject(ps) =>
      IntoPropsBuild(ps, a);
      W.IntoPropsUnfold(ps, a);
      var (props, b) := W.IntoProps(ps, a);
      W.AddCell(b, Props(props));
      forall i | 0 <= i < |ps| ensures Builds(b.heap[b.next := Props(props)], props[i].value, ps[i].value) {
        BuildsGrows(b, W.Arena(b.heap[b.next := Props(props)], b.next + 1), props[i].value, ps[i].value);
      }
    case _ =>
  }

  lemma {:induction false} IntoItemsBuild(ws: seq<W.Wire>, a: W.Arena)
    requires W.Sane(a)
    ensures var (vs, b) := W.IntoItems(ws, a);
            |vs| == |ws| && forall i | 0 <= i < |ws| :: Builds(b.heap, vs[i], ws[i])
    decreases ws
  {
    if ws != [] {
      var n := |ws| - 1;
      IntoItemsBuild(ws[..n], a);
      W.IntoItemsUnfold(ws[..n], a);
      var (front, b) := W.IntoItems(ws[..n], a);
      IntoBuilds(ws[n], b);
      W.IntoUnfolds(ws[n], b);
      var (last, c) := W.IntoValue(ws[n], b);
      forall i | 0 <= i < n ensures Builds(c.heap, front[i], ws[i]) {
        BuildsGrows(b, c, front[i], ws[..n][i]);
      }
    }
  }

  lemma {:induction false} IntoPropsBuild(ps: seq<W.Field>, a: W.Arena)
    requires W.Sane(a)
    ensures var (qs, b) := W.IntoProps(ps, a);
            && |qs| == |ps|
            && forall i | 0 <= i < |ps| ::
                 qs[i].key == ps[i].key && qs[i].enumerable && Builds(b.heap, qs[i].value, ps[i].value)
    decreases ps
  {
    if ps != [] {
      var n := |ps| - 1;
      IntoPropsBuild(ps[..n], a);
      W.IntoPropsUnfold(ps[..n], a);
      var (front, b) := W.IntoProps(ps[..n], a);
      IntoBuilds(ps[n].value, b);
      W.IntoUnfolds(ps[n].value, b);
      var (last, c) := W.IntoValue(ps[n].value, b);
      forall i | 0 <= i < n
        ensures front[i].key == ps[i].key && front[i].enumerable && Builds(c.heap, front[i].value, ps[i].value)
      {
        assert ps[..n][i] == ps[i];
        BuildsGrows(b, c, front[i].value, ps[..n][i].value);
      }
    }
  }

  // ---------------------------------------------------------------------
  // The host's copy
  // ---------------------------------------------------------------------

  // Field `i` is the last of its key.
  ghost predicate LastField(ps: seq<W.Field>, i: nat)
    requires i < |ps|
  {
    forall j | i < j < |ps| :: ps[j].key != ps[i].key
  }

  ghost predicate HasField(ps: seq<W.Field>, k: string) {
    exists i | 0 <= i < |ps| :: ps[i].key == k
  }

  // The host sees `w`, apart from internal keys; a repeated key shows its last field.
  ghost predicate Shows(host: M.HostHeap, hv: M.HostValue, w: W.Wire)
    decreases w
  {
    match w
    case WUndefined => hv == M.HUndefined
    case WNull => hv == M.HNull
    case WBool(b) => hv == M.HBool(b)
    case WNumber(bits) => hv == M.HNumber(bits)
    case WString(text) => hv == M.HString(text)
    case WError(name, message) => hv == M.HError(name, message)
    case WArray(ws) =>
      && hv.HArray? && hv.id in host && host[hv.id].HItems? && |host[hv.id].items| == |ws|
      && forall i | 0 <= i < |ws| :: Shows(host, host[hv.id].items[i], ws[i])
    case WObject(ps) =>
      && hv.HObject? && hv.id in host && host[hv.id].HProps?
      && (forall k :: k in host[hv.id].props <==> HasField(ps, k) && !M.InternalKey(k))
      && forall i | 0 <= i < |ps| && LastField(ps, i) && !M.InternalKey(ps[i].key) ::
           Shows(host, host[hv.id].props[ps[i].key], ps[i].value)
  }

  ghost predicate AllMatched(h: Heap, memo: M.Memo, host: M.HostHeap) {
    forall l | l in memo :: M.Matched(h, memo, host, l)
  }

  lemma {:induction false} CopyShows(h: Heap, v: Value, w: W.Wire, hv: M.HostValue, memo: M.Memo, host: M.HostHeap)
    requires Builds(h, v, w) && M.Same(v, hv, memo) && AllMatched(h, memo, host)
    ensures Shows(host, hv, w)
    decreases w
  {
    match w
    case WArray(ws) =>
      assert M.Matched(h, memo, host, v.at);
      forall i | 0 <= i < |ws| ensures Shows(host, host[hv.id].items[i], ws[i]) {
        CopyShows(h, h[v.at].items[i], ws[i], host[hv.id].items[i], memo, host);
      }
    case WObject(ps) => ObjectShows(h, v, ps, hv, memo, host);
    case _ =>
  }

  lemma KeysShow(h: Heap, v: Value, ps: seq<W.Field>, hv: M.HostValue, memo: M.Memo, host: M.HostHeap, k: string)
    requires Builds(h, v, W.WObject(ps)) && M.Same(v, hv, memo) && AllMatched(h, memo, host)
    ensures hv.HObject? && hv.id in host && host[hv.id].HProps?
    ensures k in host[hv.id].props <==> HasField(ps, k) && !M.InternalKey(k)
  {
    assert M.Matched(h, memo, host, v.at);
    var props, out := h[v.at].props, host[hv.id].props;
    if k in out {
      assert M.Sourced(props, |props|, k);
    }
    if HasField(ps, k) && !M.InternalKey(k) {
      var i :| 0 <= i < |ps| && ps[i].key == k;
      assert M.Visible(props[i]) && M.Stored(props, i, |props|, out, memo);
    }
  }

  lemma {:induction false} ObjectShows(h: Heap, v: Value, ps: seq<W.Field>, hv: M.HostValue, memo: M.Memo,
      host: M.HostHeap)
    requires Builds(h, v, W.WObject(ps)) && M.Same(v, hv, memo) && AllMatched(h, memo, host)
    ensures Shows(host, hv, W.WObject(ps))
    decreases W.WObject(ps), 0
  {
    forall k ensures hv.HObject? && hv.id in host && host[hv.id].HProps?
      ensures k in host[hv.id].props <==> HasField(ps, k) && !M.InternalKey(k)
    {
      KeysShow(h, v, ps, hv, memo, host, k);
    }
    KeysShow(h, v, ps, hv, memo, host, "");
    var props, out := h[v.at].props, host[hv.id].props;
    forall i | 0 <= i < |ps| && LastField(ps, i) && !M.InternalKey(ps[i].key)
      ensures Shows(host, out[ps[i].key], ps[i].value)
    {
      assert M.Matched(h, memo, host, v.at);
      assert M.Visible(props[i]) && M.Stored(props, i, |props|, out, memo);
      assert M.Last(props, i, |props|);
      CopyShows(h, props[i].value, ps[i].value, out[ps[i].key], memo, host);
    }
  }

  // What is within the limits of the wire is within those of the copy.
  lemma {:induction false} FitsWithin(h: Heap, v: Value, w: W.Wire, depth: nat, above: set<Loc>)
    requires Closed(h) && Typed(h, v) && W.Unfolds(h, v, w) && W.Fits(w, depth)
    ensures M.WithinLimits(h, v, depth, above)
    decreases w
  {
    if Container(v) {
      assert TypedCell(h, h[v.at]);
    }
    match w
    case WArray(ws) =>
      forall i | 0 <= i < |ws| ensures M.WithinLimits(h, h[v.at].items[i], depth + 1, above + {v.at}) {
        FitsWithin(h, h[v.at].items[i], ws[i], depth + 1, above + {v.at});
      }
    case WObject(ps) =>
      forall i | 0 <= i < |ps| ensures M.WithinLimits(h, h[v.at].props[i].value, depth + 1, above + {v.at}) {
        FitsWithin(h, h[v.at].props[i].value, ps[i].value, depth + 1, above + {v.at});
      }
    case _ =>
  }

  // A wire value that is built and copied out again shows exactly its own fields.
  lemma CrossesBack(w: W.Wire, a: W.Arena, hv: M.HostValue, memo: M.Memo, host: M.HostHeap)
    requires W.Sane(a)
    requires var (v, b) := W.IntoValue(w, a); M.Isomorphic(b.heap, v, hv, memo, host)
    ensures Shows(host, hv, w)
  {
    IntoBuilds(w, a);
    var (v, b) := W.IntoValue(w, a);
    CopyShows(b.heap, v, w, hv, memo, host);
  }

  // If it is within the limits, only the host can make the copy fail.
  lemma FitsCrossesBack(w: W.Wire, a: W.Arena)
    requires W.Sane(a) && W.Fits(w, 0)
    ensures var (v, b) := W.IntoValue(w, a);
            Closed(b.heap) && Typed(b.heap, v) && M.WithinLimits(b.heap, v, 0, {})
  {
    W.IntoUnfolds(w, a);
    var (v, b) := W.IntoValue(w, a);
    FitsWithin(b.heap, v, w, 0, {});
  }
}
