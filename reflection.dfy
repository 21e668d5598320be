/**
  What the key resolver sees of a mapping and of an entity through Java
  reflection: field descriptors with their string properties, the methods of
  the persistent class (in the order `getMethods()` lists them) with the outcome
  of invoking each one on the entity, and the class's public fields.
 */
module Reflection {
  import opened Wrappers

  /** ASCII lower-casing, the part of `Character.toLowerCase` this model covers. */
  function Lower(c: char): (l: char)
    ensures 'A' <= c <= 'Z' ==> 'a' <= l <= 'z' && l as int - c as int == 32
    ensures !('A' <= c <= 'Z') ==> l == c
  {
    if 'A' <= c <= 'Z' then (c as int + 32) as char else c
  }

  /** `String.equalsIgnoreCase` over ASCII letters. */
  function EqualsIgnoreCase(a: string, b: string): (same: bool)
    ensures same ==> |a| == |b|
    ensures a == b ==> same
    ensures same ==> forall i :: 0 <= i < |a| ==> Lower(b[i]) == Lower(a[i])
    ensures |a| == |b| &&
            (forall i :: 0 <= i < |a| ==>
               a[i] == b[i] ||
               ('A' <= a[i] <= 'Z' && b[i] as int == a[i] as int + 32) ||
               ('A' <= b[i] <= 'Z' && a[i] as int == b[i] as int + 32))
            ==> same
  {
    |a| == |b| && forall i :: 0 <= i < |a| ==> Lower(a[i]) == Lower(b[i])
  }

  /** `Boolean.parseBoolean`: true exactly for a non-null "true" in any case. */
  function ParseBoolean(s: Option<string>): (b: bool)
    ensures b <==> s.Some? && |s.value| == 4 && s.value[0] in "tT" && s.value[1] in "rR" &&
                   s.value[2] in "uU" && s.value[3] in "eE"
    ensures s.None? ==> !b
  {
    s.Some? && EqualsIgnoreCase(s.value, "true")
  }

  /** Java's rendering of a possibly-null String in a concatenation. */
  function JavaText(s: Option<string>): (t: string)
    ensures s.Some? ==> t == s.value
    ensures s.None? ==> t == "null"
  {
    match s
    case Some(v) => v
    case None => "null"
  }

  /** A field descriptor of the mapping: its name and its named properties. */
  datatype Field = Field(name: string, properties: map<string, string>)

  /** `Field.getProperty`: null when the property is not set. */
  function GetProperty(f: Field, property: string): (p: Option<string>)
    ensures p.Some? <==> property in f.properties
    ensures p.Some? ==> p.value == f.properties[property]
  {
    if property in f.properties then Some(f.properties[property]) else None
  }

  /** The field carries a `primarykey` property that parses as boolean true. */
  function IsPrimaryKey(f: Field): (b: bool)
    ensures b <==> "primarykey" in f.properties &&
                   var v := f.properties["primarykey"];
                   |v| == 4 && v[0] in "tT" && v[1] in "rR" && v[2] in "uU" && v[3] in "eE"
  {
    ParseBoolean(GetProperty(f, "primarykey"))
  }

  /** The outcome of `Method.invoke(object)` with no arguments. */
  datatype Invocation<K> = Returned(value: K) | Threw

  /** One entry of `persistentClass.getMethods()`, with what invoking it on the entity yields. */
  datatype Method<K> = Method(name: string, outcome: Invocation<K>)

  /**
    A persistent entity as reflection sees it: the class's method list in
    `getMethods()` order, and the values of its public fields by exact name.
    In Java both lists belong to the persistent class and are the same for
    every entity; here each entity carries its own copy, which is more general.
   */
  datatype Entity<K> = Entity(methods: seq<Method<K>>, publicFields: map<string, K>)

  lemma ParseBooleanExamples()
    ensures ParseBoolean(Some("true")) && ParseBoolean(Some("TRUE")) && ParseBoolean(Some("True"))
    ensures !ParseBoolean(None) && !ParseBoolean(Some("yes")) && !ParseBoolean(Some("1"))
    ensures !ParseBoolean(Some(" true"))
  {
  }
}
