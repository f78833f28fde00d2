/** The parsed JSON body of a request, and JavaScript string length. */
module Json {
  import opened Wrappers

  /** A value `JSON.parse` can produce, except that numbers are finite reals
      (no `Infinity` from an overflowing literal) and strings hold Unicode
      scalar values (no unpaired surrogate from an escape such as `\ud800`). */
  datatype Json =
    | Null
    | Bool(b: bool)
    | Num(n: real)
    | Str(s: string)
    | Arr(items: seq<Json>)
    | Obj(fields: map<string, Json>)

  /** `body[key]`; `None` is `undefined` (missing key, or not an object). */
  function Field(body: Json, key: string): (v: Option<Json>)
    ensures v.Some? <==> body.Obj? && key in body.fields
    ensures v.Some? ==> v.value == body.fields[key]
  {
    if body.Obj? && key in body.fields then Some(body.fields[key]) else None
  }

  /** A JavaScript string's `length`: UTF-16 code units, so a character
      outside the Basic Multilingual Plane counts twice. */
  function Utf16Length(s: string): (n: nat)
    ensures |s| <= n <= 2 * |s|
    ensures n == |s| <==> forall i :: 0 <= i < |s| ==> s[i] as int <= 0xFFFF
  {
    if s == [] then 0
    else
      assert forall i :: 1 <= i < |s| ==> s[i] == s[1..][i - 1];
      (if s[0] as int > 0xFFFF then 2 else 1) + Utf16Length(s[1..])
  }

  /** A single character takes one code unit, or two (a surrogate pair)
      when it lies outside the Basic Multilingual Plane. */
  lemma Utf16LengthChar(c: char)
    ensures Utf16Length([c]) == if c as int > 0xFFFF then 2 else 1
  {
    assert [c][1..] == [];
  }

  /** The length of a concatenation is the sum of the lengths; with
      `Utf16LengthChar` this fixes the length of every string. */
  lemma {:induction false} Utf16LengthAppend(a: string, b: string)
    ensures Utf16Length(a + b) == Utf16Length(a) + Utf16Length(b)
  {
    if a == [] {
      assert a + b == b;
    } else {
      assert (a + b)[0] == a[0];
      assert (a + b)[1..] == a[1..] + b;
      Utf16LengthAppend(a[1..], b);
    }
  }

  /** One emoji is one character but two code units. */
  lemma AstralCharCountsTwice()
    ensures Utf16Length("\U{1F600}") == 2
  {
  }

  /** A plain letter followed by an emoji is three code units. */
  lemma LetterAndEmojiLength()
    ensures Utf16Length("a\U{1F600}") == 3
  {
    assert "a\U{1F600}" == "a" + "\U{1F600}";
    Utf16LengthAppend("a", "\U{1F600}");
    Utf16LengthChar('a');
    Utf16LengthChar('\U{1F600}');
  }
}
