/** Reading the fields of a submitted form, and the string tests the request
    handlers apply to them. */
module Forms {
  import opened Wrappers

  /** A submitted form: each field name with its (first) value. */
  type Form = map<string, string>

  /** `formData.get(name)?.toString()`: the field's text, or `undefined`. */
  function Field(form: Form, name: string): Option<string> {
    if name in form then Some(form[name]) else None
  }

  /** JavaScript truthiness of an optional string: present and non-empty. */
  predicate Truthy(v: Option<string>) {
    v.Some? && v.value != ""
  }

  /** `formData.get(name) === "true"`: only the exact text "true" is true. */
  predicate IsTrue(form: Form, name: string)
    ensures IsTrue(form, name) <==> name in form && form[name] == "true"
  {
    Field(form, name) == Some("true")
  }

  /** The characters `String.prototype.trim` removes: ECMAScript WhiteSpace
      (tab, vertical tab, form feed, the byte order mark and every space
      separator) and LineTerminator. */
  predicate IsTrimmable(c: char) {
    var n := c as int;
    n == 0x09 || n == 0x0B || n == 0x0C || n == 0xFEFF ||
    n == 0x20 || n == 0xA0 || n == 0x1680 || (0x2000 <= n <= 0x200A) ||
    n == 0x202F || n == 0x205F || n == 0x3000 ||
    n == 0x0A || n == 0x0D || n == 0x2028 || n == 0x2029
  }

  /** The string without its leading trimmable characters. */
  function TrimStart(s: string): (r: string)
    ensures |r| <= |s| && r == s[|s| - |r|..]
    ensures forall i :: 0 <= i < |s| - |r| ==> IsTrimmable(s[i])
    ensures r == [] || !IsTrimmable(r[0])
  {
    if s != [] && IsTrimmable(s[0]) then TrimStart(s[1..]) else s
  }

  /** The string without its trailing trimmable characters. */
  function TrimEnd(s: string): (r: string)
    ensures |r| <= |s| && r == s[..|r|]
    ensures forall i :: |r| <= i < |s| ==> IsTrimmable(s[i])
    ensures r == [] || !IsTrimmable(r[|r| - 1])
  {
    if s != [] && IsTrimmable(s[|s| - 1]) then TrimEnd(s[..|s| - 1]) else s
  }

  /** `String.prototype.trim`. */
  function Trim(s: string): (r: string)
    ensures var k := |s| - |TrimStart(s)|;
            k + |r| <= |s| && r == s[k..k + |r|] &&
            (forall i :: 0 <= i < k ==> IsTrimmable(s[i])) &&
            (forall i :: k + |r| <= i < |s| ==> IsTrimmable(s[i]))
    ensures r == [] || (!IsTrimmable(r[0]) && !IsTrimmable(r[|r| - 1]))
  {
    TrimEnd(TrimStart(s))
  }

  /** `s.trim()` is truthy exactly when `s` holds a character trim keeps. */
  predicate HasText(s: string)
    ensures HasText(s) <==> exists i :: 0 <= i < |s| && !IsTrimmable(s[i])
  {
    TrimEmptyIff(s);
    Trim(s) != ""
  }

  /** A string trims to nothing exactly when all of it is trimmable. */
  lemma TrimEmptyIff(s: string)
    ensures Trim(s) == "" <==> forall i :: 0 <= i < |s| ==> IsTrimmable(s[i])
  {
  }
}
