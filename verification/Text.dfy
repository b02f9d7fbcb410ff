/** Character-level checks, and the text library the server links against. */
module Text {

  /** Unicode category Cc. */
  predicate IsControl(c: char) {
    c as int < 0x20 || 0x7f <= c as int < 0xa0
  }

  function Utf8Bytes(c: char): nat {
    if c as int < 0x80 then 1 else if c as int < 0x800 then 2 else if c as int < 0x10000 then 3 else 4
  }

  function Utf8Length(s: string): nat {
    if s == "" then 0 else Utf8Bytes(s[0]) + Utf8Length(s[1..])
  }

  predicate ValidString(s: string, maximum: nat) {
    Utf8Length(s) <= maximum && forall c | c in s :: !IsControl(c)
  }

  predicate Letter(c: char) { 'A' <= c <= 'Z' || 'a' <= c <= 'z' }

  predicate NameChar(c: char) { Letter(c) || '0' <= c <= '9' || c == '-' || c == '_' }

  predicate ValidName(s: string) {
    0 < |s| <= 128 && Letter(s[0]) && forall c | c in s :: NameChar(c)
  }

  /** strings.Split: the parts between separators, never an empty list. */
  function Split(s: string, separator: char): (parts: seq<string>)
    ensures |parts| > 0
  {
    if s == "" then [""]
    else
      var rest := Split(s[1..], separator);
      if s[0] == separator then [""] + rest
      else [[s[0]] + rest[0]] + rest[1..]
  }

  /** An attribute name, or an attribute and a sub-attribute joined by a dot. */
  predicate ValidAttributeName(s: string) {
    var parts := Split(s, '.');
    |parts| <= 2 && forall p | p in parts :: ValidName(p)
  }
}
