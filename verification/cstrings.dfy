/** C strings as the wrappers hand them around: a `const char *` is either NULL or
    points at the bytes before its terminating NUL. Each `char` stands for one byte. */
module CStrings {

  datatype CStr = Null | Str(s: string)

  /** The `p ? p : ""` idiom: a pointer that is never NULL. */
  function OrEmpty(p: CStr): (r: CStr)
    ensures r.Str?
    ensures p.Str? ==> r == p
    ensures p.Null? ==> r.s == ""
  {
    if p.Null? then Str("") else p
  }
}
