/** Values shared by every part of the resource store model: optional values
    (JavaScript's `null`/`undefined` both become `None`), byte buffers and the
    string-keyed objects that the store serialises as JSON. */
module Common {

  /** A value that may be absent. */
  datatype Option<+T> = None | Some(value: T) {
    /** The value, or `default` when there is none (`x ?? default`). */
    function GetOr(default: T): T {
      if Some? then value else default
    }
  }

  /** JavaScript's `a ?? b`: `a` unless it is null or undefined. */
  function OrElse<T>(a: Option<T>, b: Option<T>): (r: Option<T>)
    ensures a.Some? ==> r == a
    ensures a.None? ==> r == b
  {
    if a.Some? then a else b
  }

  /** The contents of a Node.js `Buffer`. */
  type Bytes = seq<bv8>

  /** A plain object with string values, such as a header set. */
  type StringMap = map<string, string>

  /** `obj[key]`, which is undefined when the key is absent. */
  function Lookup(m: StringMap, key: string): (r: Option<string>)
    ensures r.Some? <==> key in m
    ensures r.Some? ==> r.value == m[key]
  {
    if key in m then Some(m[key]) else None
  }

  /** JavaScript's `s.length`: the number of UTF-16 code units, which is two
      for every character outside the Basic Multilingual Plane. */
  function Utf16Length(s: string): (n: nat)
    ensures |s| <= n <= 2 * |s|
  {
    if |s| == 0 then 0 else (if s[0] as int >= 0x1_0000 then 2 else 1) + Utf16Length(s[1..])
  }

  /** A string of Basic Multilingual Plane characters has one code unit per
      character. */
  lemma {:induction false} Utf16LengthOfBmp(s: string)
    requires forall i :: 0 <= i < |s| ==> s[i] as int < 0x1_0000
    ensures Utf16Length(s) == |s|
  {
    if |s| > 0 {
      Utf16LengthOfBmp(s[1..]);
    }
  }

  /** Code units add up over concatenation. */
  lemma {:induction false} Utf16LengthConcat(a: string, b: string)
    ensures Utf16Length(a + b) == Utf16Length(a) + Utf16Length(b)
  {
    if |a| > 0 {
      assert (a + b)[1..] == a[1..] + b;
      Utf16LengthConcat(a[1..], b);
    } else {
      assert a + b == b;
    }
  }

  /** `JSON.stringify` on a plain object; the library itself is not modelled,
      so every operation that serialises takes it as a parameter. */
  type Stringify = StringMap -> string

  /** `JSON.parse` of a stored object string, likewise a parameter. */
  type Parse = string -> StringMap
}
