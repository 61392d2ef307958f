/** Values shared by every part of the model: optional values, and the
    string-valued members of a parsed JSON request body with the
    JavaScript coercions the handlers apply to them. */
module Base {

  datatype Option<+T> = None | Some(value: T)

  /** A member of a parsed JSON body: absent, an explicit `null`, or a string. */
  datatype JsonField = Missing | Null | Text(text: string)

  /** JavaScript truthiness of a string that may be absent: present and non-empty. */
  predicate Truthy(o: Option<string>)
  {
    o.Some? && o.value != ""
  }

  /** `field` is truthy in JavaScript: a non-empty string. */
  predicate FieldTruthy(f: JsonField)
  {
    f.Text? && f.text != ""
  }

  /** `field || null`: an empty string collapses to null. */
  function OrNull(f: JsonField): Option<string>
  {
    if FieldTruthy(f) then Some(f.text) else None
  }

  /** `field ?? null`: only absence and `null` become null; the empty string is kept. */
  function OrNullish(f: JsonField): Option<string>
  {
    if f.Text? then Some(f.text) else None
  }

  /** `value || fallback` on a string that may be absent. */
  function OrElse(o: Option<string>, fallback: string): string
  {
    if Truthy(o) then o.value else fallback
  }

  lemma {:induction false} CoalescingDiffers(f: JsonField)
    ensures f == Text("") ==> OrNull(f) == None && OrNullish(f) == Some("")
    ensures f != Text("") ==> OrNull(f) == OrNullish(f)
  {
  }
}
