/**
 Hints for global names: each remembers the slot where its name was last found, and is
 checked against the slot's key before it is used.
 */
module GlobalHints {
  import opened Wrappers

  datatype Slot = Slot(key: string, value: int)

  type Hint = Option<nat>

  predicate Keyed(slots: seq<Slot>, key: string, i: nat) {
    i < |slots| && slots[i].key == key
  }

  // Any answer a search for the key may give; a repeated key may be found anywhere.
  ghost predicate Answers(slots: seq<Slot>, key: string, own: Option<nat>) {
    match own
    case Some(i) => Keyed(slots, key, i)
    case None => forall i: nat :: !Keyed(slots, key, i)
  }

  ghost predicate AtMostOnce(slots: seq<Slot>, key: string) {
    forall i: nat, j: nat | Keyed(slots, key, i) && Keyed(slots, key, j) :: i == j
  }

  // The slot for a name and the hint afterwards; `own` is what a search would answer, and
  // `disabled` says that the slots may hold repeated keys.
  function CachedOwnIndex(slots: seq<Slot>, disabled: bool, key: string, hint: Hint, own: Option<nat>)
    : (Option<nat>, Hint)
  {
    if disabled then (None, hint)
    else if hint.Some? && Keyed(slots, key, hint.value) then (hint, hint)
    else if own.None? then (None, hint)
    else (own, own)
  }

  function CachedOwnValue(slots: seq<Slot>, disabled: bool, key: string, hint: Hint, own: Option<nat>)
    : (Option<int>, Hint)
  {
    if disabled then (None, hint)
    else if hint.Some? && Keyed(slots, key, hint.value) then (Some(slots[hint.value].value), hint)
    else if own.None? || !Keyed(slots, key, own.value) then (None, hint)
    else (Some(slots[own.value].value), own)
  }

  // Reading a global with any hint at all gives what reading it without a hint gives.
  lemma HintsHarmless(slots: seq<Slot>, disabled: bool, key: string, hint: Hint, own: Option<nat>)
    requires Answers(slots, key, own) && (disabled || AtMostOnce(slots, key))
    ensures CachedOwnValue(slots, disabled, key, hint, own).0 == CachedOwnValue(slots, disabled, key, None, own).0
    ensures CachedOwnIndex(slots, disabled, key, hint, own).0 == CachedOwnIndex(slots, disabled, key, None, own).0
  {
    if !disabled && hint.Some? && Keyed(slots, key, hint.value) {
      assert own.Some? && own.value == hint.value;
    }
  }

  // That is so for every hint exactly where the key is in one slot at most, or hints are disabled.
  lemma HintsHarmlessExactly(slots: seq<Slot>, disabled: bool, key: string, own: Option<nat>)
    requires Answers(slots, key, own)
    ensures (forall hint ::
               CachedOwnIndex(slots, disabled, key, hint, own).0 == CachedOwnIndex(slots, disabled, key, None, own).0)
            <==> disabled || AtMostOnce(slots, key)
  {
    if disabled || AtMostOnce(slots, key) {
      forall hint
        ensures CachedOwnIndex(slots, disabled, key, hint, own).0 == CachedOwnIndex(slots, disabled, key, None, own).0
      {
        HintsHarmless(slots, disabled, key, hint, own);
      }
    } else {
      var i: nat, j: nat :| Keyed(slots, key, i) && Keyed(slots, key, j) && i != j;
      var other := if own.value == i then j else i;
      assert CachedOwnIndex(slots, disabled, key, Some(other), own).0 == Some(other);
    }
  }

  // Writing through the slot that a hint leads to, or that a search finds when there is no usable hint.
  function Assigned(slots: seq<Slot>, disabled: bool, key: string, hint: Hint, own: Option<nat>,
      value: int): Option<seq<Slot>> {
    var cached := CachedOwnIndex(slots, disabled, key, hint, own).0;
    var index := if cached.Some? then cached else own;
    if index.Some? && Keyed(slots, key, index.value) then Some(slots[index.value := Slot(key, value)]) else None
  }

  // Writing a global with any hint changes the slots as writing without one does.
  lemma HintedWriteHarmless(slots: seq<Slot>, disabled: bool, key: string, hint: Hint, own: Option<nat>, value: int)
    requires Answers(slots, key, own) && (disabled || AtMostOnce(slots, key))
    ensures Assigned(slots, disabled, key, hint, own, value) == Assigned(slots, disabled, key, None, own, value)
  {
    HintsHarmless(slots, disabled, key, hint, own);
  }

  // A hint that a lookup leaves behind was found by it or was there before.
  lemma HintsComeFromLookups(slots: seq<Slot>, disabled: bool, key: string, hint: Hint, own: Option<nat>)
    requires Answers(slots, key, own)
    ensures var after := CachedOwnValue(slots, disabled, key, hint, own).1;
            after == hint || (after.Some? && Keyed(slots, key, after.value))
    ensures CachedOwnValue(slots, disabled, key, hint, own).1 == CachedOwnIndex(slots, disabled, key, hint, own).1
  {
  }
}
