/**
  `NativeSerializer`: the object-mapper backed serializer of the Cassandra
  store. The statement factory, the session and the mapper are not modelled;
  what they produce is passed in: a statement as text plus bind values, and
  the session's or mapper's reply (or the exception it threw).
 */
module Serializers {
  import opened Wrappers
  import opened Reflection
  import opened Errors
  import opened KeyResolver

  /** A statement from the query factory: CQL text and the values it filled into its parameter list. */
  datatype Statement<V> = Statement(text: string, params: seq<V>)

  /** The session call made: `execute(cql)` alone, or `execute(cql, values)`. */
  datatype Request<V> = Plain(text: string) | WithValues(text: string, values: seq<V>)

  /** An operation's session request together with what it returns or throws. */
  datatype Call<V, R> = Call(request: Request<V>, result: Result<R, Fault>)

  /** The values a request binds to the statement's markers. */
  function BoundValues<V>(r: Request<V>): seq<V>
  {
    match r
    case Plain(_) => []
    case WithValues(_, values) => values
  }

  /**
    How deleteByQuery, updateByQuery and execute run a statement: without
    bind values exactly when the factory produced an empty parameter list.
   */
  function Dispatch<V>(s: Statement<V>): (r: Request<V>)
    ensures r.text == s.text
    ensures r.Plain? <==> |s.params| == 0
    ensures BoundValues(r) == s.params
  {
    if |s.params| == 0 then Plain(s.text) else WithValues(s.text, s.params)
  }

  /**
    deleteByQuery: the statement is run, and 0 is reported whatever the
    session answered; an exception from the session propagates.
   */
  function DeleteByQuery<V>(s: Statement<V>, reply: Result<bool, Fault>): (c: Call<V, int>)
    ensures c.request == Dispatch(s)
    ensures c.result.Success? <==> reply.Success?
    ensures c.result.Success? ==> c.result.value == 0
    ensures c.result.Failure? ==> c.result.error == reply.error
  {
    Call(Dispatch(s), match reply case Success(_) => Success(0) case Failure(f) => Failure(f))
  }

  /** updateByQuery: the statement is run and its `wasApplied()` flag is returned. */
  function UpdateByQuery<V>(s: Statement<V>, reply: Result<bool, Fault>): (c: Call<V, bool>)
    ensures c.request == Dispatch(s)
    ensures c.result == reply
  {
    Call(Dispatch(s), reply)
  }

  /** delete(key): the mapper deletes by key; true is returned unless the mapper threw. */
  function Delete(mapperFault: Option<Fault>): (r: Result<bool, Fault>)
    ensures r.Success? <==> mapperFault.None?
    ensures r.Success? ==> r.value
    ensures r.Failure? ==> r.error == mapperFault.value
  {
    match mapperFault
    case None => Success(true)
    case Some(f) => Failure(f)
  }

  /**
    get(key, fields): the statement is always run with its value array, even
    an empty one; `mapped` is the mapper's `all()` list (None for null). A
    non-null list yields its element 0, which faults on an empty list.
   */
  function GetWithFields<V, E>(s: Statement<V>, mapped: Result<Option<seq<E>>, Fault>): (c: Call<V, Option<E>>)
    ensures c.request == WithValues(s.text, s.params)
    ensures mapped.Failure? ==> c.result == Failure(mapped.error)
    ensures mapped.Success? && mapped.value.Some? && |mapped.value.value| > 0 ==>
            c.result == Success(Some(mapped.value.value[0]))
    ensures mapped == Success(Some([])) ==> c.result == Failure(IndexOutOfBounds(0, 0))
    ensures c.result == Success(None) <==> mapped == Success(None)
  {
    var result :=
      match mapped
      case Failure(f) => Failure(f)
      case Success(None) => Success(None)
      case Success(Some(list)) =>
        if |list| == 0 then Failure(IndexOutOfBounds(0, |list|)) else Success(Some(list[0]));
    Call(WithValues(s.text, s.params), result)
  }

  // ---------------------------------------------------------------------------
  // execute: one (key, entity) pair per mapped entity

  /**
    The pairs execute adds, in the mapper's iteration order, or the
    exception of the first entity whose key cannot be resolved.
   */
  function KeyedPairs<K>(mapping: seq<Field>, persistentClass: string, entities: seq<Entity<K>>)
    : (r: Result<seq<(K, Entity<K>)>, Fault>)
    ensures r.Success? ==> |r.value| == |entities|
    ensures r.Success? ==> forall j :: 0 <= j < |entities| ==> r.value[j].1 == entities[j]
    ensures r.Failure? ==> r.error == KeyNotAccessible(KeyFieldOf(mapping), persistentClass)
  {
    if |entities| == 0 then Success([])
    else
      var n := |entities| - 1;
      match KeyedPairs(mapping, persistentClass, entities[..n])
      case Failure(f) => Failure(f)
      case Success(pairs) =>
        match ResolveKey(mapping, persistentClass, entities[n])
        case Failure(f) => Failure(f)
        case Success(k) => Success(pairs + [(k, entities[n])])
  }

  /** What execute returns: a failure of the session, or the keyed pairs of the mapped entities. */
  function ExecuteResult<K>(mapping: seq<Field>, persistentClass: string, rows: Result<seq<Entity<K>>, Fault>)
    : (r: Result<seq<(K, Entity<K>)>, Fault>)
    ensures rows.Failure? ==> r == Failure(rows.error)
    ensures rows.Success? ==>
            (r.Success? <==> forall j :: 0 <= j < |rows.value| ==> ResolveKey(mapping, persistentClass, rows.value[j]).Success?)
    ensures rows.Success? && r.Success? ==> |r.value| == |rows.value|
    ensures rows.Success? && r.Success? ==>
            forall j :: 0 <= j < |rows.value| ==>
              r.value[j] == (ResolveKey(mapping, persistentClass, rows.value[j]).value, rows.value[j])
    ensures rows.Success? && r.Failure? ==> r.error == KeyNotAccessible(KeyFieldOf(mapping), persistentClass)
  {
    match rows
    case Failure(f) => Failure(f)
    case Success(entities) =>
      KeyedPairsOnePerEntity(mapping, persistentClass, entities);
      KeyedPairs(mapping, persistentClass, entities)
  }

  /**
    execute succeeds exactly when every entity's key resolves; it then holds
    one pair per entity, in order, each the entity with its resolved key.
   */
  lemma {:induction false} KeyedPairsOnePerEntity<K>(mapping: seq<Field>, persistentClass: string, entities: seq<Entity<K>>)
    ensures var r := KeyedPairs(mapping, persistentClass, entities);
            && (r.Success? <==> forall j :: 0 <= j < |entities| ==> ResolveKey(mapping, persistentClass, entities[j]).Success?)
            && (r.Success? ==> |r.value| == |entities|)
            && (r.Success? ==> forall j :: 0 <= j < |entities| ==>
                  r.value[j] == (ResolveKey(mapping, persistentClass, entities[j]).value, entities[j]))
  {
    if |entities| > 0 {
      var n := |entities| - 1;
      var init := entities[..n];
      KeyedPairsOnePerEntity(mapping, persistentClass, init);
      assert forall j :: 0 <= j < n ==> init[j] == entities[j];
    }
  }

  /** When an entity's key does not resolve, execute throws that entity's exception if it is the first such. */
  lemma {:induction false} KeyedPairsFailsAtFirst<K>(mapping: seq<Field>, persistentClass: string, entities: seq<Entity<K>>, i: nat)
    requires i < |entities|
    requires forall j :: 0 <= j < i ==> ResolveKey(mapping, persistentClass, entities[j]).Success?
    requires ResolveKey(mapping, persistentClass, entities[i]).Failure?
    ensures KeyedPairs(mapping, persistentClass, entities) == Failure(ResolveKey(mapping, persistentClass, entities[i]).error)
  {
    var n := |entities| - 1;
    var init := entities[..n];
    if i == n {
      KeyedPairsOnePerEntity(mapping, persistentClass, init);
      assert forall j :: 0 <= j < n ==> init[j] == entities[j];
    } else {
      assert init[i] == entities[i];
      assert forall j :: 0 <= j < i ==> init[j] == entities[j];
      KeyedPairsFailsAtFirst(mapping, persistentClass, init, i);
    }
  }

  /** A failure within a prefix of the entities is the failure of the whole run. */
  lemma {:induction false} PrefixFailureIsFinal<K>(mapping: seq<Field>, persistentClass: string, entities: seq<Entity<K>>, i: nat)
    requires i <= |entities|
    requires KeyedPairs(mapping, persistentClass, entities[..i]).Failure?
    ensures KeyedPairs(mapping, persistentClass, entities) == KeyedPairs(mapping, persistentClass, entities[..i])
  {
    if i < |entities| {
      var n := |entities| - 1;
      assert entities[..n][..i] == entities[..i];
      PrefixFailureIsFinal(mapping, persistentClass, entities[..n], i);
    } else {
      assert entities[..i] == entities;
    }
  }

  /** `CassandraResultSet` as execute uses it: a container of key/entity pairs kept in insertion order. */
  class CassandraResultSet<K> {
    var elements: seq<(K, Entity<K>)>

    constructor ()
      ensures elements == []
    {
      elements := [];
    }

    method AddResultElement(key: K, value: Entity<K>)
      modifies this
      ensures elements == old(elements) + [(key, value)]
    {
      elements := elements + [(key, value)];
    }
  }

  /** The serializer bound to one persistent class and its mapping. */
  class NativeSerializer<K, V> {
    const persistentClass: string
    const mapping: seq<Field>

    constructor (persistentClass: string, mapping: seq<Field>)
      ensures this.persistentClass == persistentClass && this.mapping == mapping
    {
      this.persistentClass := persistentClass;
      this.mapping := mapping;
    }

    /**
      getKey: the first primary-key field names the key; the last method
      named "get"+field (ignoring case) is invoked; if there is none or it
      throws, the public field of that exact name is read; else it throws.
     */
    method GetKey(e: Entity<K>) returns (r: Result<K, Fault>)
      ensures r == ResolveKey(mapping, persistentClass, e)
    {
      var keyField: Option<string> := None;
      var i := 0;
      while i < |mapping|
        invariant 0 <= i <= |mapping|
        invariant KeyFieldOf(mapping) == KeyFieldOf(mapping[i..])
      {
        if IsPrimaryKey(mapping[i]) {
          keyField := Some(mapping[i].name);
          break;
        }
        assert mapping[i..][1..] == mapping[i + 1..];
        i := i + 1;
      }
      assert keyField == KeyFieldOf(mapping);

      var target := AccessorName(keyField);
      var keyMethod: Option<nat> := None;
      var j := 0;
      while j < |e.methods|
        invariant 0 <= j <= |e.methods|
        invariant keyMethod == KeyMethodIndex(e.methods[..j], target)
      {
        if EqualsIgnoreCase(e.methods[j].name, target) {
          keyMethod := Some(j);
        }
        assert e.methods[..j + 1][..j] == e.methods[..j];
        j := j + 1;
      }
      assert e.methods[..j] == e.methods;

      var invoked := if keyMethod.Some? then e.methods[keyMethod.value].outcome else Threw;
      if invoked.Returned? {
        r := Success(invoked.value);
      } else if keyField.Some? && keyField.value in e.publicFields {
        r := Success(e.publicFields[keyField.value]);
      } else {
        r := Failure(KeyNotAccessible(keyField, persistentClass));
      }
    }

    /**
      execute: runs the statement, then walks the mapped entities in order and
      adds each with its key to a fresh result container.
     */
    method Execute(s: Statement<V>, rows: Result<seq<Entity<K>>, Fault>)
      returns (request: Request<V>, r: Result<CassandraResultSet<K>, Fault>)
      ensures request == Dispatch(s)
      ensures r.Success? <==> ExecuteResult(mapping, persistentClass, rows).Success?
      ensures r.Success? ==> fresh(r.value) && r.value.elements == ExecuteResult(mapping, persistentClass, rows).value
      ensures r.Failure? ==> r.error == ExecuteResult(mapping, persistentClass, rows).error
    {
      var container := new CassandraResultSet<K>();
      request := Dispatch(s);
      if rows.Failure? {
        return request, Failure(rows.error);
      }
      var entities := rows.value;
      var i := 0;
      while i < |entities|
        invariant 0 <= i <= |entities|
        invariant fresh(container)
        invariant KeyedPairs(mapping, persistentClass, entities[..i]) == Success(container.elements)
      {
        var key := GetKey(entities[i]);
        assert entities[..i + 1][..i] == entities[..i];
        if key.Failure? {
          PrefixFailureIsFinal(mapping, persistentClass, entities, i + 1);
          return request, Failure(key.error);
        }
        container.AddResultElement(key.value, entities[i]);
        i := i + 1;
      }
      assert entities[..i] == entities;
      r := Success(container);
    }
  }
}
