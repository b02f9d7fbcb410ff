/** Entity tags: the list parser and the two conditional-request comparisons. */
module Etag {
  import opened Values

  datatype EntityTag = EntityTag(text: string, weak: bool)
  datatype EntityTags = Star | Listed(tags: seq<EntityTag>)

  predicate Blank(c: char) { c == ' ' || c == '\t' }

  predicate Separator(c: char) { Blank(c) || c == ',' }

  /** etagc of section 8.8.3 of RFC 9110, except that the double quote ends the tag. */
  predicate TagChar(c: char) {
    c as int == 0x21 || 0x23 <= c as int <= 0x7e || c as int >= 0x80
  }

  function SkipBlanks(s: string): (r: string)
    ensures |r| <= |s|
  {
    if s != "" && Blank(s[0]) then SkipBlanks(s[1..]) else s
  }

  function SkipSeparators(s: string): (r: string)
    ensures |r| <= |s|
  {
    if s != "" && Separator(s[0]) then SkipSeparators(s[1..]) else s
  }

  function TrimRight(s: string): (r: string)
    ensures |r| <= |s|
  {
    if s != "" && Blank(s[|s| - 1]) then TrimRight(s[..|s| - 1]) else s
  }

  function Trim(s: string): string {
    TrimRight(SkipBlanks(s))
  }

  /** The length of the tag text before the closing quote. None when a character is not
      allowed or the quote never comes. */
  function TagLength(s: string): (r: Option<nat>)
    ensures r.Some? ==> r.value < |s|
  {
    if s == "" then None
    else if s[0] == '"' then Some(0)
    else if !TagChar(s[0]) then None
    else match TagLength(s[1..]) case None => None case Some(n) => Some(n + 1)
  }

  datatype Scan = Finished | Malformed | Tag(tag: EntityTag, rest: string)

  /** One quoted text, and then a comma or the end. */
  function ReadQuoted(value: string, weak: bool): (r: Scan)
    ensures r.Tag? ==> |r.rest| < |value|
    ensures !r.Finished?
  {
    if value == "" || value[0] != '"' then Malformed
    else
      var text := value[1..];
      var length := TagLength(text);
      if length.None? then Malformed
      else
        var after := SkipBlanks(text[length.value + 1..]);
        if after != "" && after[0] != ',' then Malformed
        else Tag(EntityTag(text[..length.value], weak), after)
  }

  /** Separators and an optional weakness mark before a quoted text. */
  function ReadTag(value: string): (r: Scan)
    ensures r.Tag? ==> |r.rest| < |value|
  {
    var start := SkipSeparators(value);
    if start == "" then Finished
    else if "W/" <= start then ReadQuoted(start[2..], true)
    else ReadQuoted(start, false)
  }

  function ParseList(value: string, tags: seq<EntityTag>): Option<seq<EntityTag>>
    decreases |value|
  {
    match ReadTag(value)
    case Finished => Some(tags)
    case Malformed => None
    case Tag(tag, rest) => ParseList(rest, tags + [tag])
  }

  function Parse(raw: string): Option<EntityTags> {
    var value := Trim(raw);
    if value == "*" then Some(Star)
    else if value == "" then None
    else
      match ParseList(value, [])
      case None => None
      case Some(tags) => if tags == [] then None else Some(Listed(tags))
  }

  method PassSeparators(value: string, from: nat) returns (position: nat)
    requires from <= |value|
    ensures from <= position <= |value|
    ensures value[position..] == SkipSeparators(value[from..])
  {
    position := from;
    while position < |value| && Separator(value[position])
      invariant from <= position <= |value|
      invariant SkipSeparators(value[position..]) == SkipSeparators(value[from..])
    {
      assert value[position..][1..] == value[position + 1..];
      position := position + 1;
    }
  }

  method PassBlanks(value: string, from: nat) returns (position: nat)
    requires from <= |value|
    ensures from <= position <= |value|
    ensures value[position..] == SkipBlanks(value[from..])
  {
    position := from;
    while position < |value| && Blank(value[position])
      invariant from <= position <= |value|
      invariant SkipBlanks(value[position..]) == SkipBlanks(value[from..])
    {
      assert value[position..][1..] == value[position + 1..];
      position := position + 1;
    }
  }

  /** Stops on the closing quote. */
  method PassText(value: string, from: nat) returns (ok: bool, position: nat)
    requires from <= |value|
    ensures from <= position
    ensures ok ==> position < |value|
    ensures TagLength(value[from..]) == if ok then Some(position - from) else None
  {
    position := from;
    while position < |value| && value[position] != '"'
      invariant from <= position <= |value|
      invariant TagLength(value[from..]) ==
        match TagLength(value[position..]) case None => None case Some(n) => Some(n + (position - from))
    {
      if !TagChar(value[position]) {
        return false, position;
      }
      assert value[position..][1..] == value[position + 1..];
      position := position + 1;
    }
    ok := position < |value|;
  }

  method ScanQuoted(value: string, from: nat, weak: bool) returns (scan: Scan, position: nat)
    requires from <= |value|
    ensures scan == ReadQuoted(value[from..], weak)
    ensures scan.Tag? ==> from < position <= |value| && scan.rest == value[position..]
  {
    if from == |value| || value[from] != '"' {
      return Malformed, from;
    }
    ghost var text := value[from..][1..];
    assert value[from + 1..] == text;
    var ok, end := PassText(value, from + 1);
    if !ok {
      return Malformed, end;
    }
    assert value[from + 1..end] == text[..end - from - 1];
    assert value[end + 1..] == text[end - from..];
    position := PassBlanks(value, end + 1);
    if position < |value| && value[position] != ',' {
      return Malformed, position;
    }
    scan := Tag(EntityTag(value[from + 1..end], weak), value[position..]);
  }

  /** One round of the scanner. */
  method ScanTag(value: string, from: nat) returns (scan: Scan, position: nat)
    requires from < |value|
    ensures scan == ReadTag(value[from..])
    ensures scan.Tag? ==> from < position <= |value| && scan.rest == value[position..]
  {
    position := PassSeparators(value, from);
    if position == |value| {
      return Finished, position;
    }
    hide ReadQuoted, SkipSeparators;
    if "W/" <= value[position..] {
      assert value[position..][2..] == value[position + 2..];
      scan, position := ScanQuoted(value, position + 2, true);
    } else {
      scan, position := ScanQuoted(value, position, false);
    }
  }

  /** The position-advancing scanner. */
  method ParseEntityTags(raw: string) returns (result: Option<EntityTags>)
    ensures result == Parse(raw)
  {
    var value := Trim(raw);
    if value == "*" {
      return Some(Star);
    }
    if value == "" {
      return None;
    }
    var tags := [];
    var position := 0;
    assert value[0..] == value;
    while position < |value|
      invariant 0 <= position <= |value|
      invariant ParseList(value, []) == ParseList(value[position..], tags)
      decreases |value| - position
    {
      var scan, next := ScanTag(value, position);
      match scan
      case Finished => break;
      case Malformed => return None;
      case Tag(tag, _) =>
        tags := tags + [tag];
        position := next;
    }
    assert position == |value| ==> ReadTag(value[position..]) == Finished;
    result := if tags == [] then None else Some(Listed(tags));
  }

  // ---------- conditions ----------

  function SingleStrongTag(current: string): Option<string> {
    match Parse(current)
    case Some(Listed(tags)) => if |tags| == 1 && !tags[0].weak then Some(tags[0].text) else None
    case _ => None
  }

  /** None is a malformed header or version. */
  function IfMatch(header: string, current: string, present: bool): Option<bool> {
    if header == "" then Some(true)
    else
      match Parse(header)
      case None => None
      case Some(candidates) =>
        if !present then Some(false)
        else
          match SingleStrongTag(current)
          case None => None
          case Some(tag) => Some(candidates.Star? || EntityTag(tag, false) in candidates.tags)
  }

  function IfNoneMatch(header: string, current: string, present: bool): Option<bool> {
    if header == "" || !present then Some(true)
    else
      match Parse(header)
      case None => None
      case Some(candidates) =>
        match SingleStrongTag(current)
        case None => None
        case Some(tag) => Some(!candidates.Star? && forall t | t in candidates.tags :: t.text != tag)
  }

  // ---------- round trip ----------

  /** Any visible character but the double quote, and anything beyond ASCII. */
  predicate WellFormedTag(tag: EntityTag) {
    forall c | c in tag.text :: c == '!' || '#' <= c <= '~' || c > '\U{7f}'
  }

  function ShowTag(tag: EntityTag): string {
    (if tag.weak then "W/" else "") + "\"" + tag.text + "\""
  }

  function Show(tags: seq<EntityTag>): string {
    if tags == [] then ""
    else if |tags| == 1 then ShowTag(tags[0])
    else ShowTag(tags[0]) + ", " + Show(tags[1..])
  }

  lemma {:induction false} TagEndsAtQuote(text: string, tail: string)
    requires forall c | c in text :: TagChar(c)
    ensures TagLength(text + "\"" + tail) == Some(|text|)
  {
    var all := text + "\"" + tail;
    if text != "" {
      assert text[0] in text && all[0] == text[0] && TagChar(text[0]);
      assert forall c | c in text[1..] :: c in text;
      assert all[1..] == text[1..] + "\"" + tail;
      TagEndsAtQuote(text[1..], tail);
    } else {
      assert all[0] == '"';
    }
  }

  lemma OneTagIsRead(tag: EntityTag, tail: string, tags: seq<EntityTag>)
    requires WellFormedTag(tag)
    requires tail == "" || tail[0] == ','
    ensures ParseList(ShowTag(tag) + tail, tags) == ParseList(tail, tags + [tag])
  {
    TagIsRead(tag, tail);
  }

  lemma QuotedIsRead(tag: EntityTag, tail: string)
    requires WellFormedTag(tag)
    requires tail == "" || tail[0] == ','
    ensures ReadQuoted("\"" + tag.text + "\"" + tail, tag.weak) == Tag(tag, tail)
  {
    Characters();
    var text := tag.text + "\"" + tail;
    TagEndsAtQuote(tag.text, tail);
    assert ("\"" + tag.text + "\"" + tail)[1..] == text;
    assert text[..|tag.text|] == tag.text;
    assert text[|tag.text| + 1..] == tail;
    assert SkipBlanks(tail) == tail;
  }

  lemma TagIsRead(tag: EntityTag, tail: string)
    requires WellFormedTag(tag)
    requires tail == "" || tail[0] == ','
    ensures ReadTag(ShowTag(tag) + tail) == Tag(tag, tail)
  {
    hide ReadQuoted, WellFormedTag, TagChar;
    var value := ShowTag(tag) + tail;
    var quoted := "\"" + tag.text + "\"" + tail;
    QuotedIsRead(tag, tail);
    assert value == (if tag.weak then "W/" else "") + quoted;
    assert value[0] == (if tag.weak then 'W' else '"');
    assert SkipSeparators(value) == value;
    if tag.weak {
      assert "W/" <= value && value[2..] == quoted;
    } else {
      assert value == quoted;
    }
  }

  lemma {:induction false} ListIsRead(tags: seq<EntityTag>, before: seq<EntityTag>)
    requires forall t | t in tags :: WellFormedTag(t)
    ensures ParseList(Show(tags), before) == Some(before + tags)
    decreases |tags|
  {
    hide ParseList, ShowTag, WellFormedTag;
    NothingIsRead(before + tags);
    if tags == [] {
      assert before + tags == before;
    } else if |tags| == 1 {
      OneTagIsRead(tags[0], "", before);
      assert ShowTag(tags[0]) + "" == Show(tags);
      assert before + [tags[0]] == before + tags;
    } else {
      var tail := ", " + Show(tags[1..]);
      OneTagIsRead(tags[0], tail, before);
      assert ShowTag(tags[0]) + tail == Show(tags);
      SeparatorsAreSkipped(Show(tags[1..]), before + [tags[0]]);
      ListIsRead(tags[1..], before + [tags[0]]);
      assert before + [tags[0]] + tags[1..] == before + tags;
    }
  }

  lemma NothingIsRead(tags: seq<EntityTag>)
    ensures ParseList("", tags) == Some(tags)
  {
  }

  lemma SeparatorsAreSkipped(value: string, tags: seq<EntityTag>)
    ensures ParseList(", " + value, tags) == ParseList(value, tags)
  {
    assert (", " + value)[1..] == " " + value;
    assert (" " + value)[1..] == value;
    assert SkipSeparators(", " + value) == SkipSeparators(" " + value) == SkipSeparators(value);
  }

  lemma {:induction false} ShownEndsInQuote(tags: seq<EntityTag>)
    requires tags != []
    ensures |Show(tags)| >= 2 && Show(tags)[|Show(tags)| - 1] == '"'
    ensures Show(tags)[0] == 'W' || Show(tags)[0] == '"'
  {
    if |tags| > 1 {
      ShownEndsInQuote(tags[1..]);
    }
  }

  /** Parsing a written list gives the same tags, in order, strength included. */
  lemma TagListRoundTrip(tags: seq<EntityTag>)
    requires tags != [] && forall t | t in tags :: WellFormedTag(t)
    ensures Parse(Show(tags)) == Some(Listed(tags))
  {
    ShownEndsInQuote(tags);
    ListIsRead(tags, []);
    assert Trim(Show(tags)) == Show(tags);
    assert [] + tags == tags;
  }

  // ---------- what a header spells ----------

  /** Tags one after another: separators before each, and blanks and then a comma or the end behind it. */
  ghost predicate Spells(value: string, tags: seq<EntityTag>)
    decreases |tags|
  {
    if tags == [] then forall c | c in value :: c in " \t,"
    else exists before, gap, rest: string :: SpellsFirst(value, tags[0], before, gap, rest) && Spells(rest, tags[1..])
  }

  ghost predicate SpellsFirst(value: string, tag: EntityTag, before: string, gap: string, rest: string) {
    && value == before + (ShowTag(tag) + (gap + rest)) && WellFormedTag(tag)
    && (forall c | c in before :: c in " \t,") && (forall c | c in gap :: c in " \t")
    && (rest == "" || rest[0] == ',')
  }

  lemma {:induction false} SeparatorsSkipped(before: string, tail: string)
    requires forall c | c in before :: Separator(c)
    requires tail == "" || !Separator(tail[0])
    ensures SkipSeparators(before + tail) == tail
  {
    if before == "" {
      assert before + tail == tail;
    } else {
      assert (before + tail)[1..] == before[1..] + tail && before[0] in before;
      SeparatorsSkipped(before[1..], tail);
    }
  }

  lemma {:induction false} BlanksSkipped(gap: string, tail: string)
    requires forall c | c in gap :: Blank(c)
    requires tail == "" || !Blank(tail[0])
    ensures SkipBlanks(gap + tail) == tail
  {
    if gap == "" {
      assert gap + tail == tail;
    } else {
      assert (gap + tail)[1..] == gap[1..] + tail && gap[0] in gap;
      BlanksSkipped(gap[1..], tail);
    }
  }

  lemma {:induction false} SeparatorsInFront(value: string) returns (before: string)
    ensures value == before + SkipSeparators(value) && forall c | c in before :: Separator(c)
    ensures SkipSeparators(value) == "" || !Separator(SkipSeparators(value)[0])
  {
    if value != "" && Separator(value[0]) {
      var more := SeparatorsInFront(value[1..]);
      before := [value[0]] + more;
    } else {
      before := "";
    }
  }

  lemma {:induction false} BlanksInFront(value: string) returns (gap: string)
    ensures value == gap + SkipBlanks(value) && forall c | c in gap :: Blank(c)
  {
    if value != "" && Blank(value[0]) {
      var more := BlanksInFront(value[1..]);
      gap := [value[0]] + more;
    } else {
      gap := "";
    }
  }

  lemma {:induction false} TagLengthFindsQuote(s: string)
    requires TagLength(s).Some?
    ensures var n := TagLength(s).value; s[n] == '"' && forall c | c in s[..n] :: TagChar(c)
  {
    if s[0] != '"' {
      TagLengthFindsQuote(s[1..]);
      var n := TagLength(s).value;
      assert s[..n] == [s[0]] + s[1..][..n - 1];
    }
  }

  /** The scanner's classes of characters are those the headers are spelled with. */
  lemma Characters()
    ensures forall c :: Separator(c) <==> c in " \t,"
    ensures forall c :: Blank(c) <==> c in " \t"
    ensures forall c :: TagChar(c) <==> c == '!' || '#' <= c <= '~' || c > '\U{7f}'
  {
  }

  lemma SpelledQuotedIsRead(tag: EntityTag, gap: string, rest: string)
    requires WellFormedTag(tag) && (forall c | c in gap :: Blank(c)) && (rest == "" || rest[0] == ',')
    ensures ReadQuoted("\"" + tag.text + "\"" + (gap + rest), tag.weak) == Tag(tag, rest)
  {
    Characters();
    hide TagChar;
    var tail := gap + rest;
    var quoted := "\"" + tag.text + "\"" + tail;
    TagEndsAtQuote(tag.text, tail);
    assert quoted[1..] == tag.text + "\"" + tail;
    assert quoted[1..][..|tag.text|] == tag.text && quoted[1..][|tag.text| + 1..] == tail;
    BlanksSkipped(gap, rest);
  }

  lemma ReadFrom(value: string, weak: bool, quoted: string)
    requires quoted != "" && quoted[0] == '"'
    requires SkipSeparators(value) == (if weak then "W/" else "") + quoted
    ensures ReadTag(value) == ReadQuoted(quoted, weak)
  {
    hide ReadQuoted, SkipSeparators;
    var start := SkipSeparators(value);
    if weak {
      assert start[2..] == quoted;
    } else {
      assert start == quoted;
    }
  }

  /** A spelled tag is read, up to the comma or the end behind it. */
  lemma SpelledTagIsRead(value: string, tag: EntityTag, before: string, gap: string, rest: string)
    requires SpellsFirst(value, tag, before, gap, rest)
    ensures ReadTag(value) == Tag(tag, rest)
  {
    Characters();
    hide TagChar, Separator, Blank, WellFormedTag, ReadQuoted, SkipSeparators, ReadTag;
    SpelledQuotedIsRead(tag, gap, rest);
    var shown := ShowTag(tag) + (gap + rest);
    var quoted := "\"" + tag.text + "\"" + (gap + rest);
    assert shown == (if tag.weak then "W/" else "") + quoted;
    assert shown[0] == (if tag.weak then 'W' else '"');
    NotSeparators();
    SeparatorsSkipped(before, shown);
    ReadFrom(value, tag.weak, quoted);
  }

  lemma NotSeparators()
    ensures !Separator('W') && !Separator('"')
  {
  }

  lemma ReadQuotedSpells(value: string, weak: bool) returns (gap: string)
    requires ReadQuoted(value, weak).Tag?
    ensures var scan := ReadQuoted(value, weak);
      && value == "\"" + scan.tag.text + "\"" + (gap + scan.rest) && scan.tag.weak == weak
      && WellFormedTag(scan.tag) && (forall c | c in gap :: Blank(c)) && (scan.rest == "" || scan.rest[0] == ',')
  {
    Characters();
    hide TagChar, Blank, SkipBlanks, TagLength;
    var text := value[1..];
    var n := TagLength(text).value;
    TagLengthFindsQuote(text);
    gap := BlanksInFront(text[n + 1..]);
    assert text == text[..n] + [text[n]] + text[n + 1..];
    assert value == [value[0]] + text;
  }

  lemma ReadTagSpells(value: string) returns (before: string, gap: string)
    requires ReadTag(value).Tag?
    ensures SpellsFirst(value, ReadTag(value).tag, before, gap, ReadTag(value).rest)
  {
    Characters();
    hide ReadQuoted, SkipSeparators, WellFormedTag, Separator, Blank;
    before := SeparatorsInFront(value);
    var start := SkipSeparators(value);
    if "W/" <= start {
      gap := ReadQuotedSpells(start[2..], true);
      assert start == "W/" + start[2..];
    } else {
      gap := ReadQuotedSpells(start, false);
    }
    assert start == ShowTag(ReadTag(value).tag) + (gap + ReadTag(value).rest);
  }

  lemma {:induction false} SpelledListIsRead(value: string, tags: seq<EntityTag>, acc: seq<EntityTag>)
    requires Spells(value, tags)
    ensures ParseList(value, acc) == Some(acc + tags)
    decreases |tags|
  {
    Characters();
    hide ReadTag, Separator;
    if tags == [] {
      assert value + "" == value && acc + tags == acc;
      SeparatorsSkipped(value, "");
      OnlySeparators(value);
    } else {
      var before, gap, rest :| SpellsFirst(value, tags[0], before, gap, rest) && Spells(rest, tags[1..]);
      SpelledTagIsRead(value, tags[0], before, gap, rest);
      SpelledListIsRead(rest, tags[1..], acc + [tags[0]]);
      assert acc + [tags[0]] + tags[1..] == acc + tags;
    }
  }

  lemma OnlySeparators(value: string)
    ensures SkipSeparators(value) == "" <==> ReadTag(value).Finished?
  {
  }

  lemma {:induction false} ReadListSpells(value: string, acc: seq<EntityTag>) returns (tags: seq<EntityTag>)
    requires ParseList(value, acc).Some?
    ensures ParseList(value, acc).value == acc + tags && Spells(value, tags)
    decreases |value|
  {
    Characters();
    hide ReadTag;
    match ReadTag(value)
    case Finished =>
      tags := [];
      var before := SeparatorsInFront(value);
      OnlySeparators(value);
      assert value == before;
    case Tag(tag, rest) =>
      var before, gap := ReadTagSpells(value);
      var more := ReadListSpells(rest, acc + [tag]);
      tags := [tag] + more;
      assert tags[1..] == more && acc + [tag] + more == acc + tags;
      hide SpellsFirst;
      assert SpellsFirst(value, tags[0], before, gap, rest) && Spells(rest, tags[1..]);
  }

  /** A header is accepted as a list exactly when it spells at least one tag, and then the tags it
      spells are the ones returned. */
  lemma AcceptedHeadersSpellTheirTags(raw: string, tags: seq<EntityTag>)
    ensures Parse(raw) == Some(Listed(tags)) <==> tags != [] && Spells(Trim(raw), tags)
  {
    hide ReadTag;
    var value := Trim(raw);
    if Parse(raw) == Some(Listed(tags)) {
      var spelled := ReadListSpells(value, []);
      assert [] + spelled == spelled;
    }
    if tags != [] && Spells(value, tags) {
      SpelledListIsRead(value, tags, []);
      assert [] + tags == tags;
      assert value != "*" && value != "" by {
        var before, gap, rest :| SpellsFirst(value, tags[0], before, gap, rest);
        assert |ShowTag(tags[0])| >= 2;
      }
    }
  }

  lemma {:induction false} SpelledTagsAreWellFormed(value: string, tags: seq<EntityTag>)
    requires Spells(value, tags)
    ensures forall t | t in tags :: WellFormedTag(t)
    decreases |tags|
  {
    if tags != [] {
      var before, gap, rest :| SpellsFirst(value, tags[0], before, gap, rest) && Spells(rest, tags[1..]);
      SpelledTagsAreWellFormed(rest, tags[1..]);
    }
  }

  /** If-Match compares strongly, If-None-Match weakly (sections 13.1.1 and 13.1.2 of RFC 9110), for
      every header that lists tags and every version that is one strong tag. */
  lemma ConditionsCompareTags(header: string, tags: seq<EntityTag>, version: string, current: EntityTag)
    requires tags != [] && Spells(Trim(header), tags)
    requires Spells(Trim(version), [current]) && !current.weak
    ensures IfMatch(header, version, true) == Some(current in tags)
    ensures IfNoneMatch(header, version, true) == Some(forall t | t in tags :: t.text != current.text)
    ensures IfMatch(header, version, false) == Some(false)
    ensures IfNoneMatch(header, version, false) == Some(true)
  {
    AcceptedHeadersSpellTheirTags(header, tags);
    AcceptedHeadersSpellTheirTags(version, [current]);
    hide Spells;
    assert header != "" by {
      assert Parse("") == None;
    }
    hide Parse;
  }

  /** What is read of a header is what stands between blanks. */
  lemma TrimMeans(raw: string, core: string)
    ensures Trim(raw) == core <==>
      && (core == "" || (core[0] !in " \t" && core[|core| - 1] !in " \t"))
      && exists before, after: string ::
           raw == before + core + after && forall c | c in before + after :: c in " \t"
  {
    Characters();
    hide Blank;
    var gap := BlanksInFront(raw);
    var after := BlanksBehind(SkipBlanks(raw));
    TrimmedEnds(raw);
    if Trim(raw) == core {
      assert raw == gap + core + after;
      forall c | c in gap + after
        ensures c in " \t"
      {
        assert c in gap || c in after;
      }
    }
    forall before, behind: string | raw == before + core + behind && (forall c | c in before + behind :: c in " \t")
      && (core == "" || (core[0] !in " \t" && core[|core| - 1] !in " \t"))
      ensures Trim(raw) == core
    {
      assert forall c | c in before :: c in before + behind;
      assert forall c | c in behind :: c in before + behind;
      Trimmed(before, core, behind);
    }
  }

  lemma {:induction false} BlanksBehind(s: string) returns (after: string)
    ensures s == TrimRight(s) + after && forall c | c in after :: Blank(c)
  {
    if s != "" && Blank(s[|s| - 1]) {
      var more := BlanksBehind(s[..|s| - 1]);
      after := more + [s[|s| - 1]];
    } else {
      after := "";
    }
  }

  lemma {:induction false} RightEnds(s: string)
    ensures TrimRight(s) == "" || !Blank(TrimRight(s)[|TrimRight(s)| - 1])
    ensures TrimRight(s) <= s
  {
    if s != "" && Blank(s[|s| - 1]) {
      RightEnds(s[..|s| - 1]);
    }
  }

  lemma {:induction false} LeftEnds(s: string)
    ensures SkipBlanks(s) == "" || !Blank(SkipBlanks(s)[0])
  {
    if s != "" && Blank(s[0]) {
      LeftEnds(s[1..]);
    }
  }

  lemma TrimmedEnds(raw: string)
    ensures Trim(raw) == "" || (!Blank(Trim(raw)[0]) && !Blank(Trim(raw)[|Trim(raw)| - 1]))
  {
    LeftEnds(raw);
    RightEnds(SkipBlanks(raw));
  }

  lemma {:induction false} NothingBehind(core: string, after: string)
    requires forall c | c in after :: Blank(c)
    requires core == "" || !Blank(core[|core| - 1])
    ensures TrimRight(core + after) == core
  {
    if after == "" {
      assert core + after == core;
    } else {
      var all := core + after;
      assert all[|all| - 1] == after[|after| - 1] && after[|after| - 1] in after;
      assert all[..|all| - 1] == core + after[..|after| - 1];
      NothingBehind(core, after[..|after| - 1]);
    }
  }

  lemma {:induction false} AllBlank(s: string)
    requires forall c | c in s :: Blank(c)
    ensures SkipBlanks(s) == ""
  {
    if s != "" {
      assert s[0] in s;
      AllBlank(s[1..]);
    }
  }

  lemma Trimmed(before: string, core: string, after: string)
    requires (forall c | c in before :: Blank(c)) && forall c | c in after :: Blank(c)
    requires core == "" || (!Blank(core[0]) && !Blank(core[|core| - 1]))
    ensures Trim(before + core + after) == core
  {
    var all := before + core + after;
    assert all == before + (core + after);
    if core == "" {
      AllBlank(all);
    } else {
      BlanksSkipped(before, core + after);
      NothingBehind(core, after);
    }
  }

  /** A version counts exactly as one strong tag. */
  lemma VersionsAreStrongTags(version: string, text: string)
    ensures SingleStrongTag(version) == Some(text) <==> Spells(Trim(version), [EntityTag(text, false)])
  {
    var one := [EntityTag(text, false)];
    AcceptedHeadersSpellTheirTags(version, one);
    hide Spells, Trim, ParseList;
    if SingleStrongTag(version) == Some(text) {
      var tags := Parse(version).value.tags;
      assert tags == [tags[0]] && tags[0] == EntityTag(text, false);
    }
  }

  /** The asterisk stands for every version: If-Match admits whatever exists, If-None-Match refuses it, and
      no other header is read as one. */
  lemma StarMatchesAnything(header: string, version: string)
    requires SingleStrongTag(version).Some?
    ensures Parse(header) == Some(Star) <==> Trim(header) == "*"
    ensures Trim(header) == "*" ==>
      && IfMatch(header, version, true) == Some(true) && IfNoneMatch(header, version, true) == Some(false)
      && IfMatch(header, version, false) == Some(false) && IfNoneMatch(header, version, false) == Some(true)
  {
    assert header == "" ==> Trim(header) == "";
    hide ParseList, SingleStrongTag, Trim;
  }

  /** A printed tag spells itself. */
  lemma ShownTagSpells(tag: EntityTag)
    requires WellFormedTag(tag)
    ensures Spells(Trim(ShowTag(tag)), [tag])
  {
    TagListRoundTrip([tag]);
    assert Show([tag]) == ShowTag(tag);
    AcceptedHeadersSpellTheirTags(ShowTag(tag), [tag]);
  }
}
