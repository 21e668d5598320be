/** The exceptions the serializer raises or lets through. */
module Errors {
  import opened Wrappers
  import opened Reflection

  datatype Fault =
    /** getKey's RuntimeException: neither accessor nor public field gave the key. */
    | KeyNotAccessible(keyField: Option<string>, persistentClass: string)
      /** `List.get(index)` on a list of `size` elements. */
    | IndexOutOfBounds(index: int, size: int)
      /** An exception from the session or the mapper, passed on unchanged. */
    | Store(reason: string)

  /**
    The text of getKey's RuntimeException for fault `f`: the key field (or
    "null"), the persistent class, and `cause`, the message of the field
    lookup's exception.
   */
  function KeyFaultMessage(f: Fault, cause: string): (m: string)
    requires f.KeyNotAccessible?
    ensures var k := JavaText(f.keyField);
            var at := 5 + |k| + 22;
            && |m| == at + |f.persistentClass| + 3 + |cause|
            && m[..5] == "Field"
            && m[5..5 + |k|] == k
            && m[at..at + |f.persistentClass|] == f.persistentClass
            && m[|m| - |cause|..] == cause
  {
    "Field" + JavaText(f.keyField) + " is not accessible in " + f.persistentClass + " : " + cause
  }
}
