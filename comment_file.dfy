/** The plain-text comment file shared by the crawler and the analysers. Each
    comment is written as a block of tagged lines
        评论时间: <time>
        用户: <username>
        评分: <rating>        (only when the rating is non-zero)
        内容: <content>
    followed by a line of fifty '-'. Reading splits the text on the dash line,
    strips every block and every line, and recognises the lines by their tag. */
module CommentFile {
  import opened PyStr

  /** The width of the dash line between records. */
  const SeparatorWidth: nat := 50
  const Separator: string := Repeat('-', SeparatorWidth)
  const TimeTag: string := "评论时间:"
  const UserTag: string := "用户:"
  const RatingTag: string := "评分:"
  const ContentTag: string := "内容:"
  const DefaultUsername: string := "匿名用户"

  /** A comment as the crawler collects it. The rating is held in tenths, the
      way the page encodes it (`allstar45` is 4.5): `Some(45)`. */
  datatype Comment = Comment(content: string, time: string, username: string, rating: Option<nat>, url: string)

  /** Python's truth value of the rating: present and not zero. */
  predicate RatingTruthy(r: Option<nat>) {
    r.Some? && r.value != 0
  }

  // ---------------------------------------------------------------------------
  // Writing

  /** `str(t / 10)` for a rating of `t` tenths: the float's shortest form, one decimal. */
  function RatingText(t: nat): (r: string)
    ensures |r| >= 3 && r[|r| - 2] == '.'
    ensures forall i :: 0 <= i < |r| && i != |r| - 2 ==> IsDigit(r[i])
  {
    NatToString(t / 10) + "." + [DigitChar(t % 10)]
  }

  function Line(tag: string, value: string): string {
    tag + " " + value
  }

  function RecordLines(c: Comment): (r: seq<string>)
    ensures |r| == if RatingTruthy(c.rating) then 4 else 3
  {
    [Line(TimeTag, c.time), Line(UserTag, c.username)]
    + (if RatingTruthy(c.rating) then [Line(RatingTag, RatingText(c.rating.value))] else [])
    + [Line(ContentTag, c.content)]
  }

  /** The tagged lines of one comment, each ended by a newline. */
  function Body(c: Comment): string {
    Join(RecordLines(c), "\n") + "\n"
  }

  /** The user line and the rating line when there is one, each ended by a newline. */
  function MiddleLines(c: Comment): string {
    Line(UserTag, c.username) + "\n"
    + (if RatingTruthy(c.rating) then Line(RatingTag, RatingText(c.rating.value)) + "\n" else "")
  }

  /** The body is the time line, the middle lines, then the content line. */
  lemma BodyShape(c: Comment)
    ensures Body(c) == Line(TimeTag, c.time) + "\n" + MiddleLines(c) + Line(ContentTag, c.content) + "\n"
  {
    var t, u, ct := Line(TimeTag, c.time), Line(UserTag, c.username), Line(ContentTag, c.content);
    if RatingTruthy(c.rating) {
      var rt := Line(RatingTag, RatingText(c.rating.value));
      assert RecordLines(c) == [t, u, rt, ct];
      JoinFour(t, u, rt, ct, "\n");
    } else {
      assert RecordLines(c) == [t, u, ct];
      JoinThree(t, u, ct, "\n");
    }
  }

  lemma RecordEnds(c: Comment)
    ensures StartsWith(Body(c) + Separator + "\n", Line(TimeTag, c.time) + "\n")
    ensures EndsWith(Body(c) + Separator + "\n", Line(ContentTag, c.content) + "\n" + Separator + "\n")
  {
    BodyShape(c);
    hide Body, MiddleLines, Line, Separator;
    var front, mid, back := Line(TimeTag, c.time) + "\n", MiddleLines(c), Line(ContentTag, c.content) + "\n" + Separator + "\n";
    var r := Body(c) + Separator + "\n";
    assert r == front + mid + back;
    assert r[..|front|] == front;
    assert r[|r| - |back|..] == back;
  }

  /** One comment as the writer puts it in the file: its time line first, its
      content line last, then the dash line. */
  function Record(c: Comment): (r: string)
    ensures StartsWith(r, Line(TimeTag, c.time) + "\n")
    ensures EndsWith(r, Line(ContentTag, c.content) + "\n" + Separator + "\n")
  {
    RecordEnds(c);
    Body(c) + Separator + "\n"
  }

  /** The whole file written for `cs`: empty for no comments, and otherwise
      ended by the dash line of the last record. */
  function Format(cs: seq<Comment>): (r: string)
    ensures cs == [] <==> r == []
    ensures cs != [] ==> EndsWith(r, Separator + "\n")
  {
    if cs == [] then "" else
      var head, tail := Record(cs[0]), Format(cs[1..]);
      assert EndsWith(head, Separator + "\n");
      assert tail != [] ==> (head + tail)[|head + tail| - |tail|..] == tail;
      head + tail
  }

  lemma {:induction false} FormatAppend(cs: seq<Comment>, c: Comment)
    ensures Format(cs + [c]) == Format(cs) + Record(c)
  {
    hide Record, StartsWith, EndsWith;
    if cs == [] {
      assert [c][1..] == [];
    } else {
      assert (cs + [c])[1..] == cs[1..] + [c];
      FormatAppend(cs[1..], c);
    }
  }

  // ---------------------------------------------------------------------------
  // Reading

  /** Python's `float(s)` for plain decimals: `[sign]digits[.digits]` with at
      least one digit. Any other text is `None` (the parser's `except`). */
  function ParseFloat(s: string): (r: Option<real>)
    ensures r.Some? ==> |s| > 0
  {
    if |s| > 0 && (s[0] == '+' || s[0] == '-') then
      match ParseUnsigned(s[1..])
      case None => None
      case Some(v) => Some(if s[0] == '-' then -v else v)
    else ParseUnsigned(s)
  }

  predicate AllDigits(s: string) {
    forall i :: 0 <= i < |s| ==> IsDigit(s[i])
  }

  function Pow10(n: nat): (r: nat)
    ensures r > 0
  {
    if n == 0 then 1 else 10 * Pow10(n - 1)
  }

  function ParseUnsigned(s: string): (r: Option<real>)
    ensures r.Some? ==> |s| > 0
  {
    var i := Find(s, ".");
    if i < 0 then
      if IsDigits(s) then Some(DigitsValue(s) as real) else None
    else
      var whole, frac := s[..i], s[i + 1..];
      if AllDigits(whole) && AllDigits(frac) && |whole| + |frac| > 0 then
        Some(DigitsValue(whole) as real + DigitsValue(frac) as real / Pow10(|frac|) as real)
      else None
  }

  /** Reading back a written rating gives its value. */
  lemma RatingTextValue(t: nat)
    ensures ParseFloat(RatingText(t)) == Some(t as real / 10.0)
  {
    hide NatToString, FindFrom, Find;
    var q := NatToString(t / 10);
    var d := [DigitChar(t % 10)];
    MissingChar(q, ".", 0);
    FindAfter(q, ".", d);
    var s := RatingText(t);
    assert s == q + "." + d;
    assert s[..|q|] == q && s[|q| + 1..] == d;
    NatToStringValue(t / 10);
    assert DigitsValue(d) == t % 10 by {
      assert d[..0] == [];
    }
    assert IsDigit(s[0]);
    assert ParseFloat(s) == ParseUnsigned(s);
    assert Find(s, ".") == |q|;
    assert AllDigits(q) && AllDigits(d);
    assert ParseUnsigned(s) == Some(DigitsValue(q) as real + DigitsValue(d) as real / 10.0);
  }

  datatype RatingField = NoRating | Unparsable | Rating(value: real)

  /** A comment as the analysers read it back. */
  datatype ParsedComment = ParsedComment(content: string, time: string, username: string, rating: RatingField)

  /** The fields one block has set so far. */
  datatype Fields = Fields(time: Option<string>, username: Option<string>, rating: RatingField, content: Option<string>)

  const NoFields := Fields(None, None, NoRating, None)

  /** `line.replace(tag, '').strip()`: no white space is left at either end. */
  function TagValue(line: string, tag: string): (r: string)
    requires |tag| > 0
    ensures Stripped(r)
  {
    Strip(Replace(line, tag, ""))
  }

  /** The rating field a rating line's value gives: the number, or unparsable
      when `float()` raises. */
  function RatingValue(value: string): (r: RatingField)
    ensures r != NoRating
    ensures r.Rating? <==> ParseFloat(value).Some?
  {
    match ParseFloat(value)
    case Some(v) => Rating(v)
    case None => Unparsable
  }

  /** A line starts with at most one of the four tags. */
  lemma TagsExclusive(line: string)
    ensures StartsWith(line, TimeTag) ==> !StartsWith(line, UserTag) && !StartsWith(line, RatingTag) && !StartsWith(line, ContentTag)
    ensures StartsWith(line, UserTag) ==> !StartsWith(line, RatingTag) && !StartsWith(line, ContentTag)
    ensures StartsWith(line, RatingTag) ==> !StartsWith(line, ContentTag)
  {
    if StartsWith(line, TimeTag) {
      TagsDiffer(line, TimeTag, UserTag, 0);
      TagsDiffer(line, TimeTag, RatingTag, 1);
      TagsDiffer(line, TimeTag, ContentTag, 0);
    }
    if StartsWith(line, UserTag) {
      TagsDiffer(line, UserTag, RatingTag, 0);
      TagsDiffer(line, UserTag, ContentTag, 0);
    }
    if StartsWith(line, RatingTag) {
      TagsDiffer(line, RatingTag, ContentTag, 0);
    }
  }

  /** One line of a block, recognised by its tag: a line with a tag sets that
      tag's field to its value, and every other field stays as it was. */
  function ApplyLine(f: Fields, raw: string): (r: Fields)
    ensures StartsWith(Strip(raw), TimeTag) ==> r.time == Some(TagValue(Strip(raw), TimeTag))
    ensures StartsWith(Strip(raw), UserTag) ==> r.username == Some(TagValue(Strip(raw), UserTag))
    ensures StartsWith(Strip(raw), RatingTag) ==> r.rating == RatingValue(TagValue(Strip(raw), RatingTag))
    ensures StartsWith(Strip(raw), ContentTag) ==> r.content == Some(TagValue(Strip(raw), ContentTag))
    ensures !StartsWith(Strip(raw), TimeTag) ==> r.time == f.time
    ensures !StartsWith(Strip(raw), UserTag) ==> r.username == f.username
    ensures !StartsWith(Strip(raw), RatingTag) ==> r.rating == f.rating
    ensures !StartsWith(Strip(raw), ContentTag) ==> r.content == f.content
  {
    var line := Strip(raw);
    TagsExclusive(line);
    if StartsWith(line, TimeTag) then f.(time := Some(TagValue(line, TimeTag)))
    else if StartsWith(line, UserTag) then f.(username := Some(TagValue(line, UserTag)))
    else if StartsWith(line, RatingTag) then f.(rating := RatingValue(TagValue(line, RatingTag)))
    else if StartsWith(line, ContentTag) then f.(content := Some(TagValue(line, ContentTag)))
    else f
  }

  /** The index of the last line that starts with `tag` once stripped, or -1. */
  function LastTagged(lines: seq<string>, tag: string): (i: int)
    ensures -1 <= i < |lines|
  {
    if lines == [] then -1
    else if StartsWith(Strip(lines[|lines| - 1]), tag) then |lines| - 1
    else LastTagged(lines[..|lines| - 1], tag)
  }

  /** The line `LastTagged` finds has the tag and no later line has it; -1
      means that no line has it. */
  lemma {:induction false} LastTaggedIsLast(lines: seq<string>, tag: string)
    ensures var i := LastTagged(lines, tag);
      && (i >= 0 ==> StartsWith(Strip(lines[i]), tag))
      && (forall j :: i < j < |lines| ==> !StartsWith(Strip(lines[j]), tag))
  {
    hide Strip, StartsWith;
    if lines != [] {
      var init := lines[..|lines| - 1];
      LastTaggedIsLast(init, tag);
      assert forall j :: 0 <= j < |init| ==> init[j] == lines[j];
    }
  }

  /** The value of the last line tagged `tag`, if any. */
  function LastValue(lines: seq<string>, tag: string): Option<string>
    requires |tag| > 0
  {
    var i := LastTagged(lines, tag);
    if i < 0 then None else Some(TagValue(Strip(lines[i]), tag))
  }

  /** The fields a block's lines set, one line after the other. */
  function ParseLines(lines: seq<string>): Fields {
    if lines == [] then NoFields else ApplyLine(ParseLines(lines[..|lines| - 1]), lines[|lines| - 1])
  }

  /** Each field holds the value of the last line with its tag, and is unset
      when no line has it: a later line overwrites an earlier one. */
  lemma {:induction false} ParseLinesLast(lines: seq<string>)
    ensures ParseLines(lines).time == LastValue(lines, TimeTag)
    ensures ParseLines(lines).username == LastValue(lines, UserTag)
    ensures ParseLines(lines).content == LastValue(lines, ContentTag)
    ensures var i := LastTagged(lines, RatingTag);
      ParseLines(lines).rating == if i < 0 then NoRating else RatingValue(TagValue(Strip(lines[i]), RatingTag))
  {
    hide Strip, TagValue, RatingValue, StartsWith, ApplyLine;
    if lines != [] {
      var init, last := lines[..|lines| - 1], lines[|lines| - 1];
      ParseLinesLast(init);
      assert ParseLines(lines) == ApplyLine(ParseLines(init), last);
      assert LastTagged(lines, TimeTag) == if StartsWith(Strip(last), TimeTag) then |init| else LastTagged(init, TimeTag);
      assert LastTagged(lines, UserTag) == if StartsWith(Strip(last), UserTag) then |init| else LastTagged(init, UserTag);
      assert LastTagged(lines, RatingTag) == if StartsWith(Strip(last), RatingTag) then |init| else LastTagged(init, RatingTag);
      assert LastTagged(lines, ContentTag) == if StartsWith(Strip(last), ContentTag) then |init| else LastTagged(init, ContentTag);
      assert forall j :: 0 <= j < |init| ==> init[j] == lines[j];
    }
  }

  /** A block yields a comment when it has a non-empty content line; a missing
      time becomes `today` and a missing user the anonymous name. */
  function ParseBlock(block: string, today: string): (r: Option<ParsedComment>)
    ensures r.Some? ==> r.value.content != []
  {
    var stripped := Strip(block);
    if stripped == [] then None else Complete(ParseLines(Split(stripped, "\n")), today)
  }

  /** The comment a block's fields make: none without a non-empty content. */
  function Complete(f: Fields, today: string): (r: Option<ParsedComment>)
    ensures r.Some? <==> f.content.Some? && f.content.value != []
  {
    if f.content.Some? && f.content.value != [] then
      Some(ParsedComment(f.content.value, f.time.GetOr(today), f.username.GetOr(DefaultUsername), f.rating))
    else None
  }

  function ParseBlocks(blocks: seq<string>, today: string): (r: seq<ParsedComment>)
    ensures |r| <= |blocks|
  {
    if blocks == [] then [] else ParseBlocks(blocks[..|blocks| - 1], today) + ParseBlock(blocks[|blocks| - 1], today).ToSeq()
  }

  /** The comments read from a file's text: at most one per dash-separated
      block, each with a non-empty content. */
  function ParseText(text: string, today: string): (r: seq<ParsedComment>)
    ensures |r| <= |Split(text, Separator)|
    ensures forall k :: 0 <= k < |r| ==> r[k].content != []
  {
    ParsedContentsNonEmpty(Split(text, Separator), today);
    ParseBlocks(Split(text, Separator), today)
  }

  lemma {:induction false} ParseBlocksAppend(a: seq<string>, b: seq<string>, today: string)
    ensures ParseBlocks(a + b, today) == ParseBlocks(a, today) + ParseBlocks(b, today)
    decreases |b|
  {
    hide ParseBlock;
    if b == [] {
      assert a + b == a;
    } else {
      var b0, x := b[..|b| - 1], ParseBlock(b[|b| - 1], today).ToSeq();
      var ab := a + b;
      assert ab[..|ab| - 1] == a + b0 && ab[|ab| - 1] == b[|b| - 1];
      assert ParseBlocks(ab, today) == ParseBlocks(a + b0, today) + x;
      ParseBlocksAppend(a, b0, today);
      assert ParseBlocks(b, today) == ParseBlocks(b0, today) + x;
    }
  }

  lemma ParseBlocksOne(b: string, today: string)
    ensures ParseBlocks([b], today) == ParseBlock(b, today).ToSeq()
  {
    assert [b][..0] == [];
  }

  lemma ParseLinesSnoc(lines: seq<string>, line: string)
    ensures ParseLines(lines + [line]) == ApplyLine(ParseLines(lines), line)
  {
    assert (lines + [line])[..|lines|] == lines;
  }

  lemma ParseBlocksStep(blocks: seq<string>, i: nat, today: string)
    requires i < |blocks|
    ensures ParseBlocks(blocks[..i + 1], today) == ParseBlocks(blocks[..i], today) + ParseBlock(blocks[i], today).ToSeq()
  {
    assert blocks[..i + 1][..i] == blocks[..i];
  }

  lemma ParseLinesStart(lines: seq<string>)
    ensures ParseLines(lines[..0]) == NoFields
  {
    assert lines[..0] == [];
  }

  lemma ParseLinesStep(lines: seq<string>, j: nat)
    requires j < |lines|
    ensures ParseLines(lines[..j + 1]) == ApplyLine(ParseLines(lines[..j]), lines[j])
  {
    assert lines[..j + 1][..j] == lines[..j];
  }

  /** The fields the lines of one block set, one line after the other. */
  method ReadFields(lines: seq<string>) returns (fields: Fields)
    ensures fields == ParseLines(lines)
  {
    hide ApplyLine, ParseLines, Strip, StartsWith, TagValue, RatingValue;
    ParseLinesStart(lines);
    fields := NoFields;
    var j := 0;
    while j < |lines|
      invariant 0 <= j <= |lines|
      invariant fields == ParseLines(lines[..j])
    {
      ParseLinesStep(lines, j);
      fields := ApplyLine(fields, lines[j]);
      j := j + 1;
    }
    assert lines[..j] == lines;
  }

  /** One block: skipped when blank, otherwise its lines read one after the other. */
  method ReadBlock(block: string, today: string) returns (parsed: Option<ParsedComment>)
    ensures parsed == ParseBlock(block, today)
  {
    hide ApplyLine, ParseLines;
    parsed := None;
    var stripped := Strip(block);
    if stripped != [] {
      var fields := ReadFields(Split(stripped, "\n"));
      parsed := Complete(fields, today);
    }
  }

  /** Reading a file: the comments of its text, or none when it cannot be read. */
  method ParseTxtFile(file: Option<string>, today: string) returns (comments: seq<ParsedComment>)
    ensures file.None? ==> comments == []
    ensures file.Some? ==> comments == ParseText(file.value, today)
  {
    hide ParseBlock;
    comments := [];
    if file.None? {
      return;
    }
    var blocks := Split(file.value, Separator);
    var i := 0;
    while i < |blocks|
      invariant 0 <= i <= |blocks|
      invariant comments == ParseBlocks(blocks[..i], today)
    {
      var parsed := ReadBlock(blocks[i], today);
      ParseBlocksStep(blocks, i, today);
      comments := comments + parsed.ToSeq();
      i := i + 1;
    }
    assert blocks[..i] == blocks;
  }

  // ---------------------------------------------------------------------------
  // Round trip

  /** A field survives the file: no newline, no dash line, no copy of its own
      tag, and no white space at either end (the crawler strips every field). */
  predicate CleanField(v: string, tag: string) {
    Stripped(v) && '\n' !in v && !Contains(v, Separator) && !Contains(v, tag)
  }

  predicate Writable(c: Comment) {
    && c.content != []
    && CleanField(c.content, ContentTag)
    && CleanField(c.time, TimeTag)
    && CleanField(c.username, UserTag)
  }

  /** What the reader recovers from a written comment: the URL is not written
      and a zero rating is not written. */
  function Parsed(c: Comment): ParsedComment {
    ParsedComment(c.content, c.time, c.username, ReadRating(c.rating))
  }

  /** The rating field read back for a rating: absent when it was not written. */
  function ReadRating(r: Option<nat>): RatingField {
    if RatingTruthy(r) then Rating(r.value as real / 10.0) else NoRating
  }

  function ParsedAll(cs: seq<Comment>): (r: seq<ParsedComment>)
    ensures |r| == |cs|
  {
    if cs == [] then [] else [Parsed(cs[0])] + ParsedAll(cs[1..])
  }

  /** Stripping a tagged line removes at most the space after an empty value. */
  lemma StripLine(tag: string, v: string)
    requires |tag| > 0 && !IsSpace(tag[0]) && !IsSpace(tag[|tag| - 1])
    requires Stripped(v)
    ensures Strip(Line(tag, v)) == if v == [] then tag else Line(tag, v)
  {
    if v == [] {
      StripPadded([], tag, " ");
      assert [] + tag + " " == Line(tag, v);
    } else {
      StripPadded([], Line(tag, v), []);
      assert [] + Line(tag, v) + [] == Line(tag, v);
    }
  }

  /** Taking the tag out of a stripped tagged line and stripping gives the value. */
  lemma UntagLine(tag: string, v: string)
    requires |tag| > 0 && !IsSpace(tag[0])
    requires Stripped(v) && !Contains(v, tag)
    ensures TagValue(if v == [] then tag else Line(tag, v), tag) == v
  {
    if v == [] {
      assert Replace(tag, tag, "") == "" by {
        assert tag[..|tag|] == tag && tag[|tag|..] == [];
      }
    } else {
      ReplaceMarker(tag, v);
      StripPadded(" ", v, []);
      assert " " + v + [] == " " + v;
    }
  }

  /** A tagged line reads back as the tag and the value. */
  lemma TaggedLine(tag: string, v: string)
    requires |tag| > 0 && !IsSpace(tag[0]) && !IsSpace(tag[|tag| - 1])
    requires Stripped(v) && !Contains(v, tag)
    ensures StartsWith(Strip(Line(tag, v)), tag)
    ensures TagValue(Strip(Line(tag, v)), tag) == v
  {
    StripLine(tag, v);
    UntagLine(tag, v);
    assert Line(tag, v)[..|tag|] == tag;
  }

  /** A line that starts with one tag does not start with a tag that differs from it at `k`. */
  lemma TagsDiffer(line: string, tag: string, other: string, k: nat)
    requires StartsWith(line, tag) && k < |tag| && k < |other| && tag[k] != other[k]
    ensures !StartsWith(line, other)
  {
    assert line[k] == tag[k];
  }

  lemma ApplyTime(f: Fields, v: string)
    requires Stripped(v) && !Contains(v, TimeTag)
    ensures ApplyLine(f, Line(TimeTag, v)) == f.(time := Some(v))
  {
    TaggedLine(TimeTag, v);
  }

  lemma ApplyUser(f: Fields, v: string)
    requires Stripped(v) && !Contains(v, UserTag)
    ensures ApplyLine(f, Line(UserTag, v)) == f.(username := Some(v))
  {
    TaggedLine(UserTag, v);
    var line := Strip(Line(UserTag, v));
    TagsDiffer(line, UserTag, TimeTag, 0);
  }

  lemma ApplyRating(f: Fields, t: nat)
    ensures ApplyLine(f, Line(RatingTag, RatingText(t))) == f.(rating := Rating(t as real / 10.0))
  {
    hide ParseFloat, RatingText, Strip, Replace;
    var v := RatingText(t);
    MissingChar(v, RatingTag, 0);
    TaggedLine(RatingTag, v);
    RatingTextValue(t);
    var line := Strip(Line(RatingTag, v));
    TagsDiffer(line, RatingTag, TimeTag, 1);
    TagsDiffer(line, RatingTag, UserTag, 0);
    assert ParseFloat(TagValue(line, RatingTag)) == Some(t as real / 10.0);
  }

  lemma ApplyContent(f: Fields, v: string)
    requires Stripped(v) && !Contains(v, ContentTag)
    ensures ApplyLine(f, Line(ContentTag, v)) == f.(content := Some(v))
  {
    TaggedLine(ContentTag, v);
    var line := Strip(Line(ContentTag, v));
    TagsDiffer(line, ContentTag, TimeTag, 0);
    TagsDiffer(line, ContentTag, UserTag, 0);
    TagsDiffer(line, ContentTag, RatingTag, 0);
  }

  /** The time and user lines set those two fields. */
  lemma ParseTwoLines(t: string, u: string)
    requires Stripped(t) && !Contains(t, TimeTag)
    requires Stripped(u) && !Contains(u, UserTag)
    ensures ParseLines([Line(TimeTag, t), Line(UserTag, u)]) == Fields(Some(t), Some(u), NoRating, None)
  {
    hide ApplyLine, Strip, TagValue, StartsWith, Replace;
    var l0, l1 := Line(TimeTag, t), Line(UserTag, u);
    var f1 := NoFields.(time := Some(t));
    ParseLinesSnoc([], l0);
    assert [] + [l0] == [l0];
    ApplyTime(NoFields, t);
    ParseLinesSnoc([l0], l1);
    assert [l0] + [l1] == [l0, l1];
    ApplyUser(f1, u);
  }

  /** Adding the rating line sets the rating. */
  lemma ParseRatingLine(lines: seq<string>, f: Fields, r: nat)
    requires ParseLines(lines) == f
    ensures ParseLines(lines + [Line(RatingTag, RatingText(r))]) == f.(rating := Rating(r as real / 10.0))
  {
    ParseLinesSnoc(lines, Line(RatingTag, RatingText(r)));
    ApplyRating(f, r);
  }

  /** Adding the content line sets the content. */
  lemma ParseContentLine(lines: seq<string>, f: Fields, v: string)
    requires ParseLines(lines) == f
    requires Stripped(v) && !Contains(v, ContentTag)
    ensures ParseLines(lines + [Line(ContentTag, v)]) == f.(content := Some(v))
  {
    ParseLinesSnoc(lines, Line(ContentTag, v));
    ApplyContent(f, v);
  }

  /** The lines of a comment written with a rating of `r` tenths. */
  lemma ParseRatedLines(t: string, u: string, r: nat, v: string)
    requires Stripped(t) && !Contains(t, TimeTag)
    requires Stripped(u) && !Contains(u, UserTag)
    requires Stripped(v) && !Contains(v, ContentTag)
    ensures ParseLines([Line(TimeTag, t), Line(UserTag, u)] + [Line(RatingTag, RatingText(r))] + [Line(ContentTag, v)])
         == Fields(Some(t), Some(u), Rating(r as real / 10.0), Some(v))
  {
    var two := [Line(TimeTag, t), Line(UserTag, u)];
    var f2 := Fields(Some(t), Some(u), NoRating, None);
    ParseTwoLines(t, u);
    ParseRatingLine(two, f2, r);
    ParseContentLine(two + [Line(RatingTag, RatingText(r))], f2.(rating := Rating(r as real / 10.0)), v);
  }

  /** The lines of a comment written without a rating. */
  lemma ParseUnratedLines(t: string, u: string, v: string)
    requires Stripped(t) && !Contains(t, TimeTag)
    requires Stripped(u) && !Contains(u, UserTag)
    requires Stripped(v) && !Contains(v, ContentTag)
    ensures ParseLines([Line(TimeTag, t), Line(UserTag, u)] + [Line(ContentTag, v)])
         == Fields(Some(t), Some(u), NoRating, Some(v))
  {
    ParseTwoLines(t, u);
    ParseContentLine([Line(TimeTag, t), Line(UserTag, u)], Fields(Some(t), Some(u), NoRating, None), v);
  }

  lemma ParseRatedRecord(c: Comment, t: nat)
    requires Writable(c) && c.rating == Some(t) && t != 0
    ensures ParseLines(RecordLines(c)) == Fields(Some(c.time), Some(c.username), Rating(t as real / 10.0), Some(c.content))
  {
    var two := [Line(TimeTag, c.time), Line(UserTag, c.username)];
    assert RecordLines(c) == two + [Line(RatingTag, RatingText(t))] + [Line(ContentTag, c.content)];
    ParseRatedLines(c.time, c.username, t, c.content);
  }

  lemma ParseUnratedRecord(c: Comment)
    requires Writable(c) && !RatingTruthy(c.rating)
    ensures ParseLines(RecordLines(c)) == Fields(Some(c.time), Some(c.username), NoRating, Some(c.content))
  {
    var two := [Line(TimeTag, c.time), Line(UserTag, c.username)];
    assert RecordLines(c) == two + [Line(ContentTag, c.content)];
    ParseUnratedLines(c.time, c.username, c.content);
  }

  /** The lines of a written comment set exactly its fields. */
  lemma ParseRecordLines(c: Comment)
    requires Writable(c)
    ensures ParseLines(RecordLines(c)) == Fields(Some(c.time), Some(c.username), ReadRating(c.rating), Some(c.content))
  {
    if RatingTruthy(c.rating) {
      var t := c.rating.value;
      assert ReadRating(c.rating) == Rating(t as real / 10.0);
      ParseRatedRecord(c, t);
    } else {
      ParseUnratedRecord(c);
    }
  }

  /** Only '-' occurs in the dash line. */
  lemma NotInSeparator(x: char)
    requires x != '-'
    ensures x !in Separator
  {
  }

  /** The written lines of a comment hold no newline and no dash line. */
  lemma RecordLinesClean(c: Comment)
    requires Writable(c)
    ensures forall k :: 0 <= k < |RecordLines(c)| ==> '\n' !in RecordLines(c)[k]
    ensures forall k :: 0 <= k < |RecordLines(c)| ==> !Contains(RecordLines(c)[k], Separator)
  {
    var ls := RecordLines(c);
    forall k | 0 <= k < |ls|
      ensures '\n' !in ls[k] && !Contains(ls[k], Separator)
    {
      if RatingTruthy(c.rating) && k == 2 {
        var v := RatingText(c.rating.value);
        MissingChar(v, Separator, 0);
        LineClean(RatingTag, v);
      } else if k == 0 {
        LineClean(TimeTag, c.time);
      } else if k == 1 {
        LineClean(UserTag, c.username);
      } else {
        LineClean(ContentTag, c.content);
      }
    }
  }

  lemma LineClean(tag: string, v: string)
    requires |tag| < |Separator| && '\n' !in tag
    requires '\n' !in v && !Contains(v, Separator)
    ensures '\n' !in Line(tag, v) && !Contains(Line(tag, v), Separator)
  {
    ShortNoContains(tag, Separator);
    NotInSeparator(' ');
    NoStraddle(tag, ' ', v, Separator);
    assert tag + [' '] + v == Line(tag, v);
  }

  /** Stripping white space around joined lines that start and end with a visible character. */
  lemma StripJoined(parts: seq<string>, lead: string)
    requires |parts| > 0 && parts[0] != [] && parts[|parts| - 1] != []
    requires !IsSpace(parts[0][0]) && !IsSpace(parts[|parts| - 1][|parts[|parts| - 1]| - 1])
    requires forall i :: 0 <= i < |lead| ==> IsSpace(lead[i])
    ensures Strip(lead + (Join(parts, "\n") + "\n")) == Join(parts, "\n")
  {
    hide Strip, Join;
    var j := Join(parts, "\n");
    JoinEnds(parts, "\n");
    assert j[0] == parts[0][0];
    assert j[|j| - 1] == parts[|parts| - 1][|parts[|parts| - 1]| - 1];
    StripPadded(lead, j, "\n");
    assert lead + j + "\n" == lead + (j + "\n");
  }

  /** The stripped block of a written comment is its lines joined by newlines. */
  lemma StripBody(c: Comment, lead: string)
    requires Writable(c)
    requires lead == "" || lead == "\n"
    ensures Strip(lead + Body(c)) == Join(RecordLines(c), "\n")
  {
    var ls := RecordLines(c);
    var first, last := Line(TimeTag, c.time), Line(ContentTag, c.content);
    assert ls[0] == first && ls[|ls| - 1] == last;
    assert first[0] == '评';
    assert last[|last| - 1] == c.content[|c.content| - 1];
    StripJoined(ls, lead);
  }

  /** A join starts with its first part and ends with its last. */
  lemma {:induction false} JoinEnds(parts: seq<string>, sep: string)
    requires |parts| > 0
    ensures StartsWith(Join(parts, sep), parts[0])
    ensures EndsWith(Join(parts, sep), parts[|parts| - 1])
    decreases |parts|
  {
    if |parts| > 1 {
      JoinEnds(parts[1..], sep);
    }
  }

  /** Splitting the file on the dash line gives one block per comment, each after
      the first still led by the newline that ended the previous dash line, and
      a last block holding only that newline. */
  function Blocks(cs: seq<Comment>, lead: string): (r: seq<string>)
    ensures |r| == |cs| + 1
  {
    if cs == [] then [lead] else [lead + Body(cs[0])] + Blocks(cs[1..], "\n")
  }

  /** The first record of a file, split at its dash line. */
  lemma FormatFront(cs: seq<Comment>, lead: string)
    requires cs != []
    ensures lead + Format(cs) == (lead + Body(cs[0])) + Separator + ("\n" + Format(cs[1..]))
  {
    Regroup(lead, Body(cs[0]), Separator, "\n", Format(cs[1..]));
  }

  /** A written block holds no dash line. */
  lemma BlockClean(c: Comment, lead: string)
    requires Writable(c)
    requires lead == "" || lead == "\n"
    ensures !Contains(lead + Body(c), Separator)
  {
    var ls := RecordLines(c);
    RecordLinesClean(c);
    NotInSeparator('\n');
    JoinNoContains(ls, '\n', Separator);
    var j := Join(ls, "\n");
    ShortNoContains([], Separator);
    NoStraddle(j, '\n', [], Separator);
    assert j + ['\n'] + [] == Body(c);
    if lead != [] {
      NoStraddle([], '\n', Body(c), Separator);
      assert [] + ['\n'] + Body(c) == lead + Body(c);
    } else {
      assert lead + Body(c) == Body(c);
    }
  }

  lemma {:induction false} SplitFormat(cs: seq<Comment>, lead: string)
    requires forall k :: 0 <= k < |cs| ==> Writable(cs[k])
    requires lead == "" || lead == "\n"
    ensures Split(lead + Format(cs), Separator) == Blocks(cs, lead)
  {
    hide StartsWith, EndsWith;
    if cs == [] {
      assert lead + Format(cs) == lead;
      ShortNoContains(lead, Separator);
    } else {
      var p := lead + Body(cs[0]);
      assert Writable(cs[0]);
      BlockClean(cs[0], lead);
      assert p[|p| - 1] == '\n';
      NotInSeparator('\n');
      FormatFront(cs, lead);
      SplitFront(p, Separator, "\n" + Format(cs[1..]));
      SplitFormat(cs[1..], "\n");
    }
  }

  /** A block whose stripped text is `stripped` and whose lines set `f`. */
  lemma ParseBlockOf(b: string, stripped: string, f: Fields, today: string)
    requires Strip(b) == stripped && stripped != []
    requires ParseLines(Split(stripped, "\n")) == f
    ensures ParseBlock(b, today) == Complete(f, today)
  {
  }

  /** The fields of a comment complete to that comment as read back. */
  lemma CompleteWritten(c: Comment, today: string)
    requires c.content != []
    ensures Complete(Fields(Some(c.time), Some(c.username), ReadRating(c.rating), Some(c.content)), today) == Some(Parsed(c))
  {
  }

  /** The block of a written comment reads back as that comment. */
  lemma ParseWrittenBlock(c: Comment, lead: string, today: string)
    requires Writable(c)
    requires lead == "" || lead == "\n"
    ensures ParseBlock(lead + Body(c), today) == Some(Parsed(c))
  {
    var ls := RecordLines(c);
    var j := Join(ls, "\n");
    StripBody(c, lead);
    JoinEnds(ls, "\n");
    RecordLinesClean(c);
    SplitJoin(ls, '\n');
    ParseRecordLines(c);
    var f := Fields(Some(c.time), Some(c.username), ReadRating(c.rating), Some(c.content));
    ParseBlockOf(lead + Body(c), j, f, today);
    CompleteWritten(c, today);
  }

  lemma {:induction false} ParseBlocksOfFormat(cs: seq<Comment>, lead: string, today: string)
    requires forall k :: 0 <= k < |cs| ==> Writable(cs[k])
    requires lead == "" || lead == "\n"
    ensures ParseBlocks(Blocks(cs, lead), today) == ParsedAll(cs)
  {
    hide ParseBlocks, ParseBlock, Body, Strip;
    if cs == [] {
      NoBlockParsed(lead, today);
    } else {
      var b, rest := lead + Body(cs[0]), Blocks(cs[1..], "\n");
      assert Blocks(cs, lead) == [b] + rest;
      assert Writable(cs[0]);
      ParseWrittenBlock(cs[0], lead, today);
      ParseBlocksOne(b, today);
      ParseBlocksOfFormat(cs[1..], "\n", today);
      ParseBlocksAppend([b], rest, today);
      assert ParsedAll(cs) == [Parsed(cs[0])] + ParsedAll(cs[1..]);
    }
  }

  /** The blank text before the first record, or after the last, gives no comment. */
  lemma NoBlockParsed(lead: string, today: string)
    requires lead == "" || lead == "\n"
    ensures ParseBlocks(Blocks([], lead), today) == []
  {
    assert Strip(lead) == [] by {
      StripPadded(lead, [], []);
      assert lead + [] + [] == lead;
    }
    ParseBlocksOne(lead, today);
  }

  /** Every comment the crawler can write is read back by the analysers with
      its content, time, user and (non-zero) rating. */
  lemma RoundTrip(cs: seq<Comment>, today: string)
    requires forall k :: 0 <= k < |cs| ==> Writable(cs[k])
    ensures ParseText(Format(cs), today) == ParsedAll(cs)
  {
    hide ParseBlock, Format, Writable;
    SplitFormat(cs, "");
    assert "" + Format(cs) == Format(cs);
    ParseBlocksOfFormat(cs, "", today);
  }

  // ---------------------------------------------------------------------------
  // The knowledge-graph reader keeps only the content

  /** One line as the content-only reader sees it: only the content tag counts. */
  function ContentLine(content: Option<string>, raw: string): Option<string> {
    var line := Strip(raw);
    if StartsWith(line, ContentTag) then Some(TagValue(line, ContentTag)) else content
  }

  function ContentOfLines(lines: seq<string>): Option<string> {
    if lines == [] then None else ContentLine(ContentOfLines(lines[..|lines| - 1]), lines[|lines| - 1])
  }

  /** A content is kept when it is present and not empty. */
  function NonEmpty(content: Option<string>): (r: Option<string>)
    ensures r.Some? ==> r.value != []
  {
    if content.Some? && content.value != [] then content else None
  }

  function ContentOfBlock(block: string): Option<string> {
    var stripped := Strip(block);
    if stripped == [] then None else NonEmpty(ContentOfLines(Split(stripped, "\n")))
  }

  function ContentBlocks(blocks: seq<string>): (r: seq<string>)
    ensures forall k :: 0 <= k < |r| ==> r[k] != []
  {
    if blocks == [] then [] else ContentBlocks(blocks[..|blocks| - 1]) + ContentOfBlock(blocks[|blocks| - 1]).ToSeq()
  }

  lemma ContentBlocksStep(blocks: seq<string>, i: nat)
    requires i < |blocks|
    ensures ContentBlocks(blocks[..i + 1]) == ContentBlocks(blocks[..i]) + ContentOfBlock(blocks[i]).ToSeq()
  {
    assert blocks[..i + 1][..i] == blocks[..i];
  }

  lemma ContentOfLinesStep(lines: seq<string>, j: nat)
    requires j < |lines|
    ensures ContentOfLines(lines[..j + 1]) == ContentLine(ContentOfLines(lines[..j]), lines[j])
  {
    assert lines[..j + 1][..j] == lines[..j];
  }

  /** The contents of the comments in a file's text, as the knowledge-graph reader sees them. */
  function ParseContents(text: string): seq<string> {
    ContentBlocks(Split(text, Separator))
  }

  function Contents(cs: seq<ParsedComment>): (r: seq<string>)
    ensures |r| == |cs|
  {
    if cs == [] then [] else Contents(cs[..|cs| - 1]) + [cs[|cs| - 1].content]
  }

  /** A line that carries the content tag carries none of the others. */
  lemma ContentTagAlone(line: string)
    requires StartsWith(line, ContentTag)
    ensures !StartsWith(line, TimeTag) && !StartsWith(line, UserTag) && !StartsWith(line, RatingTag)
  {
    assert line[0] == '内';
  }

  lemma {:induction false} ContentOfLinesAgrees(lines: seq<string>)
    ensures ContentOfLines(lines) == ParseLines(lines).content
  {
    if lines != [] {
      ContentOfLinesAgrees(lines[..|lines| - 1]);
      var line := Strip(lines[|lines| - 1]);
      if StartsWith(line, ContentTag) {
        ContentTagAlone(line);
      }
    }
  }

  /** Both readers find the same comments, in the same order, with the same contents. */
  lemma {:induction false} ContentReaderAgrees(text: string, today: string)
    ensures ParseContents(text) == Contents(ParseText(text, today))
  {
    ContentBlocksAgree(Split(text, Separator), today);
  }

  /** Both readers agree on one block. */
  lemma ContentOfBlockAgrees(b: string, today: string)
    ensures ContentOfBlock(b) == if ParseBlock(b, today).Some? then Some(ParseBlock(b, today).value.content) else None
  {
    var stripped := Strip(b);
    if stripped != [] {
      var lines := Split(stripped, "\n");
      ContentOfLinesAgrees(lines);
      ParseBlockOf(b, stripped, ParseLines(lines), today);
    }
  }

  lemma ContentsSnoc(r: seq<ParsedComment>, x: Option<ParsedComment>)
    ensures Contents(r + x.ToSeq()) == Contents(r) + (if x.Some? then [x.value.content] else [])
  {
    if x.Some? {
      assert (r + [x.value])[..|r|] == r;
    } else {
      assert r + [] == r;
    }
  }

  lemma {:induction false} ContentBlocksAgree(blocks: seq<string>, today: string)
    ensures ContentBlocks(blocks) == Contents(ParseBlocks(blocks, today))
  {
    if blocks != [] {
      var init, b := blocks[..|blocks| - 1], blocks[|blocks| - 1];
      ContentBlocksAgree(init, today);
      ContentOfBlockAgrees(b, today);
      ContentsSnoc(ParseBlocks(init, today), ParseBlock(b, today));
    }
  }

  /** The content of one block, as the knowledge-graph reader finds it. */
  method ReadContent(block: string) returns (found: Option<string>)
    ensures found == ContentOfBlock(block)
  {
    hide ContentLine;
    found := None;
    var stripped := Strip(block);
    if stripped != [] {
      var lines := Split(stripped, "\n");
      var content: Option<string> := None;
      var j := 0;
      while j < |lines|
        invariant 0 <= j <= |lines|
        invariant content == ContentOfLines(lines[..j])
      {
        ContentOfLinesStep(lines, j);
        content := ContentLine(content, lines[j]);
        j := j + 1;
      }
      assert lines[..j] == lines;
      found := NonEmpty(content);
    }
  }

  /** Reading a file as the knowledge-graph builder does. */
  method ParseContentFile(file: Option<string>) returns (contents: seq<string>)
    ensures file.None? ==> contents == []
    ensures file.Some? ==> contents == ParseContents(file.value)
  {
    hide ContentOfBlock;
    contents := [];
    if file.None? {
      return;
    }
    var blocks := Split(file.value, Separator);
    var i := 0;
    while i < |blocks|
      invariant 0 <= i <= |blocks|
      invariant contents == ContentBlocks(blocks[..i])
    {
      var found := ReadContent(blocks[i]);
      ContentBlocksStep(blocks, i);
      contents := contents + found.ToSeq();
      i := i + 1;
    }
    assert blocks[..i] == blocks;
  }

  // ---------------------------------------------------------------------------
  // Loading (`load_data_from_file` of the two analysers)

  /** Every comment read from a file has a content. */
  lemma {:induction false} ParsedContentsNonEmpty(blocks: seq<string>, today: string)
    ensures forall c :: c in ParseBlocks(blocks, today) ==> c.content != []
  {
    if blocks != [] {
      ParsedContentsNonEmpty(blocks[..|blocks| - 1], today);
    }
  }

  /** The comments loaded from `path`: the decoded records of a `.json` file
      (`json`, none when it cannot be read or decoded), the parsed comments of a
      `.txt` file (`file` is its text, none when it cannot be read), and nothing
      for any other name. */
  function Loaded(path: string, file: Option<string>, json: Option<seq<ParsedComment>>, today: string): (r: seq<ParsedComment>)
    ensures !EndsWith(path, ".json") && !EndsWith(path, ".txt") ==> r == []
    ensures EndsWith(path, ".json") ==> r == json.GetOr([])
    ensures !EndsWith(path, ".json") && EndsWith(path, ".txt") ==>
      r == (if file.None? then [] else ParseText(file.value, today)) && forall c :: c in r ==> c.content != []
  {
    if EndsWith(path, ".json") then json.GetOr([])
    else if EndsWith(path, ".txt") then
      if file.None? then []
      else
        ParsedContentsNonEmpty(Split(file.value, Separator), today);
        ParseText(file.value, today)
    else []
  }
}
