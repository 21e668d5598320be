# NativeSerializer of the Gora Cassandra store, in Dafny

This project models `NativeSerializer`, the serializer that the Gora Cassandra
store uses for entities persisted through the DataStax object mapper. Most of
that class hands work to the mapper and the session. The model covers the two
parts with logic of their own:

- **Key resolution** (`getKey`). The key field is the first field of the
  mapping whose `primarykey` property parses as boolean true. The key is read
  through the method named `"get" + keyField`, matched ignoring case. The loop
  has no `break`, so when several methods match, the last one in the class's
  method list is used. If no method matches, or invoking it throws, the
  resolver reads the public field of exactly that name. If that also fails,
  it throws a `RuntimeException` that names the field and the class. When no
  field is marked, Java's `"get" + null` yields `"getnull"`, and the model
  keeps that.
- **Query operations** (`execute`, `deleteByQuery`, `updateByQuery`,
  `get(key, fields)`, `delete`). A statement is run without bind values
  exactly when the factory produced none. The exception is `get(key, fields)`,
  which always passes its value array. `deleteByQuery` reports 0, `delete`
  reports true, and `updateByQuery` reports the session's `wasApplied()`
  flag. `get(key, fields)` returns element 0 of a non-null mapped list, so an
  empty list faults rather than giving null. `execute` adds one (key, entity)
  pair per mapped entity, in iteration order, to a container created empty for
  the call. The first entity whose key does not resolve aborts the call with
  that entity's exception.

Four behaviours of the code are easy to misread, and the model keeps each one
as written:
- when several methods match `"get" + keyField`, the code does not use the first
  one; it uses the last one in the method list;
- `get(key, fields)` does not return null for an empty mapped list; it throws
  `IndexOutOfBoundsException`, because it asks for element 0;
- `deleteByQuery` does not report a row count or an "unknown count" value; it
  always returns the number 0;
- a mapping with no primary-key field does not always make `getKey` throw; it
  yields a key when a method named `getnull` (in any case) returns one.

Modules: `Wrappers` (Option, Result), `Reflection` (field descriptors, method
list, public fields, ASCII case-insensitive comparison, `Boolean.parseBoolean`),
`Errors` (the exceptions and getKey's message), `KeyResolver` (the
specification of getKey and its properties), and `Serializers` (the operations,
the `NativeSerializer` class with the `GetKey` and `Execute` loops, and
`CassandraResultSet` as an insertion-ordered container). The session, the
mapper and the statement factory are inputs: a statement is its text plus its
bind values, and the session's or mapper's answer is a `Result` whose failure
is an exception passed on unchanged.

## Model

| member | source | states |
|---|---|---|
| `Reflection.GetProperty` | gora-cassandra-cql/src/main/java/org/apache/gora/cassandra/serializers/NativeSerializer.java:147 | A property lookup is null exactly when the field does not carry that property; otherwise it is the property's value. |
| `Reflection.JavaText` | gora-cassandra-cql/src/main/java/org/apache/gora/cassandra/serializers/NativeSerializer.java:157 | A null key field appears as "null" in a string concatenation, and any other field name appears as itself. |
| `Reflection.Lower` | gora-cassandra-cql/src/main/java/org/apache/gora/cassandra/serializers/NativeSerializer.java:157 | Upper-case ASCII letters map to the letter 32 code points higher; every other character is unchanged. |
| `Reflection.EqualsIgnoreCase` | gora-cassandra-cql/src/main/java/org/apache/gora/cassandra/serializers/NativeSerializer.java:157 | Names that match ignoring case have the same length and agree letter by letter after lower-casing. Conversely, same-length names whose characters are equal or differ only in the case of an ASCII letter match, so "getid" matches "getId". |
| `Reflection.ParseBoolean` | gora-cassandra-cql/src/main/java/org/apache/gora/cassandra/serializers/NativeSerializer.java:147 | The result is true exactly for a non-null four-letter string spelling "true" in any mix of letter cases. Null and every other string give false. |
| `Reflection.IsPrimaryKey` | gora-cassandra-cql/src/main/java/org/apache/gora/cassandra/serializers/NativeSerializer.java:147 | A field is a primary key exactly when its `primarykey` property is present and spells "true" in any mix of letter cases. |
| `Reflection.ParseBooleanExamples` | gora-cassandra-cql/src/main/java/org/apache/gora/cassandra/serializers/NativeSerializer.java:147 | `primarykey` marks a key for "true" in any letter case, and not for null, "yes", "1" or " true". |
| `Errors.KeyFaultMessage` | gora-cassandra-cql/src/main/java/org/apache/gora/cassandra/serializers/NativeSerializer.java:166 | The message of a `KeyNotAccessible` fault starts with "Field". It then gives the fault's key field name (or "null"), then the fault's persistent class, and it ends with the cause's message. |
| `KeyResolver.KeyFieldOf` | gora-cassandra-cql/src/main/java/org/apache/gora/cassandra/serializers/NativeSerializer.java:145-152 | The key field is the name of a field marked primary key, and there is none only when no field is marked. `KeyFieldIsFirstPrimary` adds that it is the first such field. |
| `KeyResolver.AccessorName` | gora-cassandra-cql/src/main/java/org/apache/gora/cassandra/serializers/NativeSerializer.java:157 | The accessor name looked for is "get" followed by the key field's text ("getnull" when there is no key field). |
| `KeyResolver.KeyMethodIndex` | gora-cassandra-cql/src/main/java/org/apache/gora/cassandra/serializers/NativeSerializer.java:156-160 | The chosen method is one of the class's methods, and its name matches the accessor name ignoring case. |
| `KeyResolver.KeyFieldIsFirstPrimary` | gora-cassandra-cql/src/main/java/org/apache/gora/cassandra/serializers/NativeSerializer.java:145-152 | There is no key field exactly when no field is marked primary key. Otherwise the key field is the name of the first marked field in mapping order. |
| `KeyResolver.LaterFieldsIgnored` | gora-cassandra-cql/src/main/java/org/apache/gora/cassandra/serializers/NativeSerializer.java:146-151 | Once a primary-key field has been found, fields after it do not change the key field. |
| `KeyResolver.KeyMethodIsLastMatch` | gora-cassandra-cql/src/main/java/org/apache/gora/cassandra/serializers/NativeSerializer.java:156-160 | No method is chosen exactly when none matches. Otherwise the chosen method is the matching one that no later method follows (the last match wins). |
| `KeyResolver.AccessorOutcome` | gora-cassandra-cql/src/main/java/org/apache/gora/cassandra/serializers/NativeSerializer.java:154-162 | A returned key comes from invoking some method whose name matches the accessor name. When every method throws, or none matches, the accessor path throws. |
| `KeyResolver.ResolveKey` | gora-cassandra-cql/src/main/java/org/apache/gora/cassandra/serializers/NativeSerializer.java:144-170 | A failure is always the exception naming the key field and the persistent class. A resolved key is either a method invocation's return value or the value of the public key field. |
| `KeyResolver.AccessorThenField` | gora-cassandra-cql/src/main/java/org/apache/gora/cassandra/serializers/NativeSerializer.java:153-169 | Let the first primary-key field be at any position i, and the last method matching "get" + its name be at j. A returning accessor gives the key. A throwing one gives way to the public field of that exact name. Without such a field, the result is the exception naming the field and the class. |
| `KeyResolver.NoPrimaryKey` | gora-cassandra-cql/src/main/java/org/apache/gora/cassandra/serializers/NativeSerializer.java:145-167 | With no primary-key field, resolution succeeds exactly when the last method named "getnull" (ignoring case) returns a value, and the key is that value. Otherwise it throws with a null key field. |
| `KeyResolver.NoAccessorReadsField` | gora-cassandra-cql/src/main/java/org/apache/gora/cassandra/serializers/NativeSerializer.java:161-167 | With no matching accessor, the key is the public field named exactly like the key field. If there is no such field, resolution throws naming that field. |
| `KeyResolver.PublicMemberScenario` | gora-cassandra-cql/src/main/java/org/apache/gora/cassandra/serializers/NativeSerializer.java:144-170 | Take the mapping {id primary key, name} and an entity with a public `id` of "u1" but no `getId`. Its key is "u1". |
| `Serializers.Dispatch` | gora-cassandra-cql/src/main/java/org/apache/gora/cassandra/serializers/NativeSerializer.java:93-97 | A statement runs without values exactly when its parameter list is empty. Its text is kept, and the bound values are exactly the parameters. The same branch appears at lines 109-113 and 136-140. |
| `Serializers.DeleteByQuery` | gora-cassandra-cql/src/main/java/org/apache/gora/cassandra/serializers/NativeSerializer.java:89-101 | The statement runs through Dispatch. The result is 0 whenever the session answers, whatever `wasApplied()` says, and a session exception propagates. |
| `Serializers.UpdateByQuery` | gora-cassandra-cql/src/main/java/org/apache/gora/cassandra/serializers/NativeSerializer.java:132-142 | The statement runs through Dispatch, and the result is exactly the session's `wasApplied()` flag (or its exception). |
| `Serializers.Delete` | gora-cassandra-cql/src/main/java/org/apache/gora/cassandra/serializers/NativeSerializer.java:67-71 | The result is true whenever the mapper's delete does not throw, and the mapper's exception otherwise. |
| `Serializers.GetWithFields` | gora-cassandra-cql/src/main/java/org/apache/gora/cassandra/serializers/NativeSerializer.java:74-86 | The statement always runs with its value array. A non-empty list gives its first element. An empty list faults with index 0 of size 0. The result is null exactly when the mapped list is null. |
| `Serializers.KeyedPairs` | gora-cassandra-cql/src/main/java/org/apache/gora/cassandra/serializers/NativeSerializer.java:114-121 | On success there is one pair per entity, each holding its own entity in iteration order. A failure is getKey's exception for the mapping's key field. |
| `Serializers.ExecuteResult` | gora-cassandra-cql/src/main/java/org/apache/gora/cassandra/serializers/NativeSerializer.java:109-121 | A session exception is returned unchanged. Otherwise the result succeeds exactly when every entity's key resolves. Pair j is then entity j with its resolved key, in iteration order. A failure is getKey's exception for the mapping's key field. |
| `Serializers.KeyedPairsOnePerEntity` | gora-cassandra-cql/src/main/java/org/apache/gora/cassandra/serializers/NativeSerializer.java:114-121 | The pairs exist exactly when every entity's key resolves. There is then one pair per entity, in iteration order, each pairing the entity with its resolved key. |
| `Serializers.KeyedPairsFailsAtFirst` | gora-cassandra-cql/src/main/java/org/apache/gora/cassandra/serializers/NativeSerializer.java:116-120 | The first entity whose key does not resolve decides the exception of the whole iteration. |
| `Serializers.PrefixFailureIsFinal` | gora-cassandra-cql/src/main/java/org/apache/gora/cassandra/serializers/NativeSerializer.java:116-120 | A key failure among the entities seen so far is the outcome of the whole iteration. |
| `Serializers.CassandraResultSet.constructor` | gora-cassandra-cql/src/main/java/org/apache/gora/cassandra/serializers/NativeSerializer.java:106 | The result container starts empty. |
| `Serializers.CassandraResultSet.AddResultElement` | gora-cassandra-cql/src/main/java/org/apache/gora/cassandra/serializers/NativeSerializer.java:119 | Adding appends exactly the one (key, entity) pair at the end. |
| `Serializers.NativeSerializer.constructor` | gora-cassandra-cql/src/main/java/org/apache/gora/cassandra/serializers/NativeSerializer.java:124-125 | The serializer is bound to its persistent class and mapping. |
| `Serializers.NativeSerializer.GetKey` | gora-cassandra-cql/src/main/java/org/apache/gora/cassandra/serializers/NativeSerializer.java:144-170 | The field loop (with break), the method loop (without break) and the two-tier fallback compute exactly ResolveKey, whose properties are the KeyResolver lemmas. |
| `Serializers.NativeSerializer.Execute` | gora-cassandra-cql/src/main/java/org/apache/gora/cassandra/serializers/NativeSerializer.java:104-122 | The statement runs through Dispatch, and the container is fresh. On success it holds exactly the keyed pairs of the mapped entities, in order. Otherwise the call fails with the session's exception or the first key failure. |

## Left out

- `put(key, value)` and `get(key)` are left out: they only hand the value or the key to the object mapper and contain no logic of their own.
- The DataStax `Mapper`, `MappingManager`, `Session` and `ResultSet` are foreign libraries. Their answers (`wasApplied()`, the mapped entities, the `all()` list, thrown exceptions) are inputs to the model.
- The CQL text and parameters from `CassandraQueryFactory` are not part of this model; a statement is an opaque (text, values) pair.
- `createSchema` and the construction of the mapper are schema and session side effects; the constructor only binds the class and the mapping.
- Java reflection is reduced to method names, invocation outcomes (returns or throws) and public field values. The order of `getMethods()` is unspecified in Java, so the method list is taken as given. The unchecked cast to `K` is a no-op.
- Reflection.Lower: lower-cases ASCII capitals only; Java's `Character.toLowerCase` also maps non-ASCII capitals.
- Reflection.EqualsIgnoreCase: folds ASCII letters only. Java's `equalsIgnoreCase` also folds non-ASCII characters, such as the Kelvin sign, which lower-cases to `k`.
- Errors.KeyFaultMessage: the cause's message (`e1.getMessage()`) is a parameter and is not derived from the reflective failure.
- `CassandraResultSet` is modelled only as an ordered list that pairs are appended to; its data store and query are not modelled.
- Logging, thread safety and the Java integer width of the `long` returned by `deleteByQuery` (always 0) are not modelled.
