/** The checks on texts, against the encoding and the alphabets they stand for. */
module TextLaws {
  import opened Text

  // ---------- lengths are those of the encoding ----------

  /** The bytes of one character (section 3 of RFC 3629). */
  function Encoded(c: char): seq<nat> {
    var n := c as int;
    if n <= 0x7f then [n]
    else if n <= 0x7ff then [0xc0 + n / 64, 0x80 + n % 64]
    else if n <= 0xffff then [0xe0 + n / 4096, 0x80 + n / 64 % 64, 0x80 + n % 64]
    else [0xf0 + n / 262144, 0x80 + n / 4096 % 64, 0x80 + n / 64 % 64, 0x80 + n % 64]
  }

  function Encoding(s: string): seq<nat> {
    if s == "" then [] else Encoded(s[0]) + Encoding(s[1..])
  }

  lemma {:induction false} LengthIsEncoding(s: string)
    ensures Utf8Length(s) == |Encoding(s)|
  {
    if s != "" {
      LengthIsEncoding(s[1..]);
    }
  }

  /** A text is valid when its encoding is short enough and it holds no control character. */
  lemma ValidTextsAre(s: string, maximum: nat)
    ensures ValidString(s, maximum) <==>
      |Encoding(s)| <= maximum && forall c | c in s :: ' ' <= c <= '~' || c >= '\U{a0}'
  {
    LengthIsEncoding(s);
  }

  // ---------- names ----------

  predicate IsLetter(c: char) { c in {'A', 'Z', 'a', 'z'} || 'A' < c < 'Z' || 'a' < c < 'z' }

  /** A name has at most 128 letters of the plain alphabet, digits, hyphens and underscores, a letter first. */
  lemma ValidNamesAre(s: string)
    ensures ValidName(s) <==>
      s != "" && |s| <= 128 && IsLetter(s[0]) && forall c | c in s :: IsLetter(c) || c in "0123456789-_"
  {
    forall c
      ensures NameChar(c) <==> IsLetter(c) || c in "0123456789-_"
      ensures Letter(c) <==> IsLetter(c)
    {
    }
    hide NameChar, Letter, IsLetter;
  }

  /** An attribute name is a name, or two joined by a dot. */
  lemma ValidAttributeNamesAre(s: string)
    ensures ValidAttributeName(s) <==>
      ValidName(s) || exists a, b :: ValidName(a) && ValidName(b) && s == a + "." + b
  {
    SplitJoins(s);
    NamesHaveNoDot();
    hide ValidName;
    var parts := Split(s, '.');
    assert parts[0] in parts;
    if ValidAttributeName(s) && |parts| == 2 {
      assert parts[1] in parts && s == parts[0] + "." + parts[1];
    }
    forall a, b | ValidName(a) && ValidName(b) && s == a + "." + b
      ensures parts == [a, b]
    {
      JoinSplits(a, b);
    }
    if ValidName(s) {
      WholeSplits(s);
    }
  }

  lemma NamesHaveNoDot()
    ensures forall s | ValidName(s) :: '.' !in s
  {
    assert !NameChar('.');
    hide NameChar, Letter;
  }

  lemma {:induction false} SplitJoins(s: string)
    ensures |Split(s, '.')| == 1 ==> s == Split(s, '.')[0]
    ensures |Split(s, '.')| == 2 ==> s == Split(s, '.')[0] + "." + Split(s, '.')[1]
  {
    if s != "" {
      SplitJoins(s[1..]);
      assert s == [s[0]] + s[1..];
    }
  }

  lemma {:induction false} WholeSplits(s: string)
    requires '.' !in s
    ensures Split(s, '.') == [s]
  {
    if s != "" {
      WholeSplits(s[1..]);
      assert s == [s[0]] + s[1..];
    }
  }

  lemma {:induction false} JoinSplits(a: string, b: string)
    requires '.' !in a && '.' !in b
    ensures Split(a + "." + b, '.') == [a, b]
  {
    var all := a + "." + b;
    if a == "" {
      assert all[1..] == b;
      WholeSplits(b);
    } else {
      assert all[1..] == a[1..] + "." + b;
      JoinSplits(a[1..], b);
      assert a == [a[0]] + a[1..];
    }
  }
}
