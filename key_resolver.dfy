/**
  The specification of `NativeSerializer.getKey`: which mapping field is the
  key, which accessor is tried, and when the public field is read instead.
 */
module KeyResolver {
  import opened Wrappers
  import opened Reflection
  import opened Errors

  /** The name of the first field in mapping order marked as primary key, or null. */
  function KeyFieldOf(fields: seq<Field>): (kf: Option<string>)
    ensures kf.Some? ==> exists i :: 0 <= i < |fields| && IsPrimaryKey(fields[i]) && fields[i].name == kf.value
    ensures kf.None? ==> forall i :: 0 <= i < |fields| ==> !IsPrimaryKey(fields[i])
  {
    if |fields| == 0 then None
    else if IsPrimaryKey(fields[0]) then Some(fields[0].name)
    else KeyFieldOf(fields[1..])
  }

  /** The accessor name getKey looks for: Java's `"get" + keyField`, "getnull" when no key field. */
  function AccessorName(keyField: Option<string>): (n: string)
    ensures |n| >= 3 && n[..3] == "get" && n[3..] == JavaText(keyField)
  {
    "get" + JavaText(keyField)
  }

  /**
    The index of the method getKey ends up holding: its loop has no `break`,
    so of all methods whose name equals `target` ignoring case, the last one.
   */
  function KeyMethodIndex<K>(methods: seq<Method<K>>, target: string): (r: Option<nat>)
    ensures r.Some? ==> r.value < |methods| && EqualsIgnoreCase(methods[r.value].name, target)
  {
    if |methods| == 0 then None
    else if EqualsIgnoreCase(methods[|methods| - 1].name, target) then Some(|methods| - 1)
    else KeyMethodIndex(methods[..|methods| - 1], target)
  }

  /** What invoking the chosen accessor yields; a missing accessor (null) throws too. */
  function AccessorOutcome<K>(e: Entity<K>, keyField: Option<string>): (r: Invocation<K>)
    ensures r.Returned? ==> exists i :: 0 <= i < |e.methods| && e.methods[i].outcome == r &&
                                        EqualsIgnoreCase(e.methods[i].name, AccessorName(keyField))
    ensures (forall i :: 0 <= i < |e.methods| ==> e.methods[i].outcome.Threw?) ==> r.Threw?
  {
    match KeyMethodIndex(e.methods, AccessorName(keyField))
    case Some(i) => e.methods[i].outcome
    case None => Threw
  }

  /** The key of entity `e` under `mapping`, or the exception getKey throws. */
  function ResolveKey<K>(mapping: seq<Field>, persistentClass: string, e: Entity<K>): (r: Result<K, Fault>)
    ensures r.Failure? ==> r.error == KeyNotAccessible(KeyFieldOf(mapping), persistentClass)
    ensures r.Success? ==>
            (exists i :: 0 <= i < |e.methods| && e.methods[i].outcome == Returned(r.value)) ||
            (KeyFieldOf(mapping).Some? && KeyFieldOf(mapping).value in e.publicFields &&
             e.publicFields[KeyFieldOf(mapping).value] == r.value)
  {
    var keyField := KeyFieldOf(mapping);
    match AccessorOutcome(e, keyField)
    case Returned(k) => Success(k)
    case Threw =>
      if keyField.Some? && keyField.value in e.publicFields then Success(e.publicFields[keyField.value])
      else Failure(KeyNotAccessible(keyField, persistentClass))
  }

  // ---------------------------------------------------------------------------
  // Which field is the key

  /** The key field is the first primary-key field; there is none exactly when no field is marked. */
  lemma {:induction false} KeyFieldIsFirstPrimary(fields: seq<Field>)
    ensures KeyFieldOf(fields).None? <==> forall i :: 0 <= i < |fields| ==> !IsPrimaryKey(fields[i])
    ensures forall i :: 0 <= i < |fields| && IsPrimaryKey(fields[i]) &&
                        (forall j :: 0 <= j < i ==> !IsPrimaryKey(fields[j]))
                        ==> KeyFieldOf(fields) == Some(fields[i].name)
  {
    if |fields| > 0 {
      var rest := fields[1..];
      KeyFieldIsFirstPrimary(rest);
      forall i | 0 <= i < |fields| && IsPrimaryKey(fields[i]) &&
                 (forall j :: 0 <= j < i ==> !IsPrimaryKey(fields[j]))
        ensures KeyFieldOf(fields) == Some(fields[i].name)
      {
        if i > 0 {
          assert rest[i - 1] == fields[i];
          forall j | 0 <= j < i - 1 ensures !IsPrimaryKey(rest[j]) {
            assert rest[j] == fields[j + 1];
          }
        }
      }
      if KeyFieldOf(fields).None? {
        forall i | 0 <= i < |fields| ensures !IsPrimaryKey(fields[i]) {
          if i > 0 { assert fields[i] == rest[i - 1]; }
        }
      }
      if forall i :: 0 <= i < |fields| ==> !IsPrimaryKey(fields[i]) {
        forall i | 0 <= i < |rest| ensures !IsPrimaryKey(rest[i]) {
          assert rest[i] == fields[i + 1];
        }
      }
    }
  }

  /** Once a primary-key field has been seen, fields appended after it are ignored. */
  lemma {:induction false} LaterFieldsIgnored(fields: seq<Field>, more: seq<Field>)
    requires KeyFieldOf(fields).Some?
    ensures KeyFieldOf(fields + more) == KeyFieldOf(fields)
  {
    assert |fields| > 0;
    if !IsPrimaryKey(fields[0]) {
      assert (fields + more)[1..] == fields[1..] + more;
      LaterFieldsIgnored(fields[1..], more);
    }
  }

  // ---------------------------------------------------------------------------
  // Which accessor is used

  /** The chosen accessor matches, and no method after it in the list matches: the last match wins. */
  lemma {:induction false} KeyMethodIsLastMatch<K>(methods: seq<Method<K>>, target: string)
    ensures KeyMethodIndex(methods, target).None? <==>
            forall i :: 0 <= i < |methods| ==> !EqualsIgnoreCase(methods[i].name, target)
    ensures forall i :: 0 <= i < |methods| && EqualsIgnoreCase(methods[i].name, target) &&
                        (forall j :: i < j < |methods| ==> !EqualsIgnoreCase(methods[j].name, target))
                        ==> KeyMethodIndex(methods, target) == Some(i)
  {
    if |methods| > 0 {
      var n := |methods| - 1;
      var init := methods[..n];
      KeyMethodIsLastMatch(init, target);
      if !EqualsIgnoreCase(methods[n].name, target) {
        forall i | 0 <= i < |methods| && EqualsIgnoreCase(methods[i].name, target) &&
                   (forall j :: i < j < |methods| ==> !EqualsIgnoreCase(methods[j].name, target))
          ensures KeyMethodIndex(methods, target) == Some(i)
        {
          assert init[i] == methods[i];
          forall j | i < j < |init| ensures !EqualsIgnoreCase(init[j].name, target) {
            assert init[j] == methods[j];
          }
        }
        if KeyMethodIndex(methods, target).None? {
          forall i | 0 <= i < |methods| ensures !EqualsIgnoreCase(methods[i].name, target) {
            if i < n { assert methods[i] == init[i]; }
          }
        }
        if forall i :: 0 <= i < |methods| ==> !EqualsIgnoreCase(methods[i].name, target) {
          forall i | 0 <= i < |init| ensures !EqualsIgnoreCase(init[i].name, target) {
            assert init[i] == methods[i];
          }
        }
      }
    }
  }

  // ---------------------------------------------------------------------------
  // The two-tier fallback

  /**
    With the first primary-key field at `i` and the last method matching
    "get"+its name at `j`: a returning accessor gives the key; a throwing one
    gives way to the public field of that exact name, and without one getKey
    throws naming the field and the class.
   */
  lemma AccessorThenField<K>(mapping: seq<Field>, persistentClass: string, e: Entity<K>, i: nat, j: nat)
    requires i < |mapping| && IsPrimaryKey(mapping[i])
    requires forall k :: 0 <= k < i ==> !IsPrimaryKey(mapping[k])
    requires j < |e.methods| && EqualsIgnoreCase(e.methods[j].name, "get" + mapping[i].name)
    requires forall k :: j < k < |e.methods| ==> !EqualsIgnoreCase(e.methods[k].name, "get" + mapping[i].name)
    ensures e.methods[j].outcome.Returned? ==>
            ResolveKey(mapping, persistentClass, e) == Success(e.methods[j].outcome.value)
    ensures e.methods[j].outcome.Threw? && mapping[i].name in e.publicFields ==>
            ResolveKey(mapping, persistentClass, e) == Success(e.publicFields[mapping[i].name])
    ensures e.methods[j].outcome.Threw? && mapping[i].name !in e.publicFields ==>
            ResolveKey(mapping, persistentClass, e) == Failure(KeyNotAccessible(Some(mapping[i].name), persistentClass))
  {
    KeyFieldIsFirstPrimary(mapping);
    KeyMethodIsLastMatch(e.methods, "get" + mapping[i].name);
  }

  /**
    With no primary-key field, getKey still succeeds if a method named
    "getnull" (in any case) exists and the last such one returns; otherwise it throws.
   */
  lemma NoPrimaryKey<K>(mapping: seq<Field>, persistentClass: string, e: Entity<K>)
    requires forall i :: 0 <= i < |mapping| ==> !IsPrimaryKey(mapping[i])
    ensures var i := KeyMethodIndex(e.methods, "getnull");
            var r := ResolveKey(mapping, persistentClass, e);
            && (r.Success? <==> i.Some? && e.methods[i.value].outcome.Returned?)
            && (r.Success? ==> i.Some? && e.methods[i.value].outcome.Returned? &&
                               r.value == e.methods[i.value].outcome.value)
            && (r.Failure? ==> r.error == KeyNotAccessible(None, persistentClass))
  {
    KeyFieldIsFirstPrimary(mapping);
    assert AccessorName(None) == "getnull";
  }

  /** With no method named "get"+field in any case, the key is the public field of that name, if any. */
  lemma NoAccessorReadsField<K>(mapping: seq<Field>, persistentClass: string, e: Entity<K>, i: nat)
    requires i < |mapping| && IsPrimaryKey(mapping[i])
    requires forall j :: 0 <= j < i ==> !IsPrimaryKey(mapping[j])
    requires forall j :: 0 <= j < |e.methods| ==> !EqualsIgnoreCase(e.methods[j].name, "get" + mapping[i].name)
    ensures mapping[i].name in e.publicFields ==>
            ResolveKey(mapping, persistentClass, e) == Success(e.publicFields[mapping[i].name])
    ensures mapping[i].name !in e.publicFields ==>
            ResolveKey(mapping, persistentClass, e) == Failure(KeyNotAccessible(Some(mapping[i].name), persistentClass))
  {
    KeyFieldIsFirstPrimary(mapping);
    KeyMethodIsLastMatch(e.methods, "get" + mapping[i].name);
  }

  /** The mapping {id: primary key, name} and an entity without a getter for id but a public id "u1". */
  lemma PublicMemberScenario()
    ensures var mapping := [Field("id", map["primarykey" := "true"]), Field("name", map[])];
            var e := Entity([Method("getName", Returned("Alice"))], map["id" := "u1", "name" := "Alice"]);
            ResolveKey(mapping, "class User", e) == Success("u1")
  {
  }
}
