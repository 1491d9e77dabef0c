/** The Douban crawler's own logic: reading the star rating from a CSS class,
    turning a subject page address into its comments page, keeping the
    comments of one page, walking the pages until enough comments are
    collected, and writing them to the comment file. The browser is given as
    a function from a page address to the elements it shows. */
module Crawler {
  import opened PyStr
  import Config
  import CommentFile

  const RatingMarker: string := "allstar"
  const SubjectMarker: string := "/subject/"

  // ---------------------------------------------------------------------------
  // `_extract_rating_from_class`

  /** `allstar(\d+)` matches at `i`. */
  predicate RatingMatchAt(s: string, i: int) {
    OccursAt(s, RatingMarker, i) && i + |RatingMarker| < |s| && IsDigit(s[i + |RatingMarker|])
  }

  /** The leftmost match at or after `from`, or -1. */
  function FirstRatingMatch(s: string, from: nat): (r: int)
    requires from <= |s|
    ensures r == -1 ==> forall i :: from <= i ==> !RatingMatchAt(s, i)
    ensures r != -1 ==> from <= r && RatingMatchAt(s, r) && forall i :: from <= i < r ==> !RatingMatchAt(s, i)
    decreases |s| - from
  {
    if RatingMatchAt(s, from) then from
    else if from == |s| then -1
    else FirstRatingMatch(s, from + 1)
  }

  /** `_extract_rating_from_class(class_str)`, in tenths of a star (the source
      divides by ten): nothing for a missing or empty class or one without
      `allstar<digits>`, otherwise the digits after the first such marker. */
  function ExtractRating(cls: Option<string>): (r: Option<nat>)
    ensures cls.None? ==> r.None?
    ensures cls.Some? ==> (r.Some? <==> exists i :: RatingMatchAt(cls.value, i))
    ensures r.Some? ==> exists i ::
      && RatingMatchAt(cls.value, i)
      && (forall j :: j < i ==> !RatingMatchAt(cls.value, j))
      && r.value == DigitsValue(DigitRun(cls.value[i + |RatingMarker|..]))
  {
    if cls.None? || cls.value == [] then None
    else
      var s := cls.value;
      var i := FirstRatingMatch(s, 0);
      if i < 0 then None
      else Some(DigitsValue(DigitRun(s[i + |RatingMarker|..])))
  }

  /** The class the site gives a rating of `t` tenths reads back as `t`,
      whatever follows the digits. */
  lemma RatingOfClass(t: nat, rest: string)
    requires rest == [] || !IsDigit(rest[0])
    ensures ExtractRating(Some(RatingMarker + NatToString(t) + rest)) == Some(t)
  {
    hide ExtractRating;
    var d := NatToString(t);
    var s := RatingMarker + (d + rest);
    assert RatingMarker + NatToString(t) + rest == s;
    assert RatingMatchAt(s, 0) by {
      assert s[..|RatingMarker|] == RatingMarker;
      assert s[|RatingMarker|] == d[0];
    }
    RatingAtStart(s);
    DropPrefix(RatingMarker, d + rest);
    DigitRunOfDigits(d, rest);
    NatToStringValue(t);
  }

  /** A class that starts with a match reads as the digits of that match. */
  lemma RatingAtStart(s: string)
    requires RatingMatchAt(s, 0)
    ensures ExtractRating(Some(s)) == Some(DigitsValue(DigitRun(s[|RatingMarker|..])))
  {
    assert FirstRatingMatch(s, 0) == 0;
  }

  // ---------------------------------------------------------------------------
  // `_get_comments_url`

  /** `/subject/(\d+)/` matches at `i`: the digits after the marker run up to a
      slash. */
  predicate SubjectMatchAt(s: string, i: int) {
    OccursAt(s, SubjectMarker, i) && IdThenSlash(s[i + |SubjectMarker|..])
  }

  /** `t` starts with digits followed by a slash. */
  predicate IdThenSlash(t: string) {
    var d := DigitRun(t);
    d != [] && |d| < |t| && t[|d|] == '/'
  }

  function FirstSubjectMatch(s: string, from: nat): (r: int)
    requires from <= |s|
    ensures r == -1 ==> forall i :: from <= i ==> !SubjectMatchAt(s, i)
    ensures r != -1 ==> from <= r && SubjectMatchAt(s, r) && forall i :: from <= i < r ==> !SubjectMatchAt(s, i)
    decreases |s| - from
  {
    if SubjectMatchAt(s, from) then from
    else if from == |s| then -1
    else FirstSubjectMatch(s, from + 1)
  }

  /** The part of the comments-page template before the subject id: the movie
      site for a movie crawler, the book site for any other content type. */
  function CommentsPrefix(contentType: string): string {
    if contentType == "movie" then Config.MovieCommentsPrefix else Config.BookCommentsPrefix
  }

  /** `_get_comments_url(content_url)`: nothing when the address has no
      `/subject/<digits>/`; otherwise the comments page of the first such id. */
  function CommentsUrl(contentUrl: string, contentType: string): (r: Option<string>)
    ensures r.None? <==> forall i :: !SubjectMatchAt(contentUrl, i)
    ensures r.Some? ==> exists i ::
      && SubjectMatchAt(contentUrl, i)
      && (forall j :: j < i ==> !SubjectMatchAt(contentUrl, j))
      && r.value == CommentsPrefix(contentType) + DigitRun(contentUrl[i + |SubjectMarker|..]) + Config.CommentsSuffix
  {
    var i := FirstSubjectMatch(contentUrl, 0);
    if i < 0 then None
    else Some(CommentsPrefix(contentType) + DigitRun(contentUrl[i + |SubjectMarker|..]) + Config.CommentsSuffix)
  }

  lemma MovieNoEarlierMarker()
    ensures forall i :: 0 <= i < |Config.MovieCommentsPrefix| - |SubjectMarker| ==> !OccursAt(Config.MovieCommentsPrefix, SubjectMarker, i)
  {
    var p := Config.MovieCommentsPrefix;
    forall i | 0 <= i < |p| - |SubjectMarker| ensures !OccursAt(p, SubjectMarker, i) {
      assert p[i] != '/' || p[i + 1] != 's';
      assert p[i..i + |SubjectMarker|][0] != '/' || p[i..i + |SubjectMarker|][1] != 's';
    }
  }

  lemma BookNoEarlierMarker()
    ensures forall i :: 0 <= i < |Config.BookCommentsPrefix| - |SubjectMarker| ==> !OccursAt(Config.BookCommentsPrefix, SubjectMarker, i)
  {
    var p := Config.BookCommentsPrefix;
    forall i | 0 <= i < |p| - |SubjectMarker| ensures !OccursAt(p, SubjectMarker, i) {
      assert p[i] != '/' || p[i + 1] != 's';
      assert p[i..i + |SubjectMarker|][0] != '/' || p[i..i + |SubjectMarker|][1] != 's';
    }
  }

  /** Neither site address holds the subject marker before its own. */
  lemma NoEarlierMarker(prefix: string)
    requires prefix == Config.MovieCommentsPrefix || prefix == Config.BookCommentsPrefix
    ensures forall i :: 0 <= i < |prefix| - |SubjectMarker| ==> !OccursAt(prefix, SubjectMarker, i)
  {
    MovieNoEarlierMarker();
    BookNoEarlierMarker();
  }

  /** A match with none before it is the leftmost one. */
  lemma FirstSubjectIs(s: string, k: nat)
    requires SubjectMatchAt(s, k)
    requires forall i :: 0 <= i < k ==> !SubjectMatchAt(s, i)
    ensures FirstSubjectMatch(s, 0) == k
  {
    hide FirstSubjectMatch, SubjectMatchAt;
    var r := FirstSubjectMatch(s, 0);
  }

  /** Text after a site address adds no match before the address's own marker. */
  lemma NoEarlierSubject(prefix: string, rest: string)
    requires prefix == Config.MovieCommentsPrefix || prefix == Config.BookCommentsPrefix
    ensures forall i :: 0 <= i < |prefix| - |SubjectMarker| ==> !SubjectMatchAt(prefix + rest, i)
  {
    var s := prefix + rest;
    NoEarlierMarker(prefix);
    forall i | 0 <= i < |prefix| - |SubjectMarker| ensures !OccursAt(s, SubjectMarker, i) {
      assert s[i..i + |SubjectMarker|] == prefix[i..i + |SubjectMarker|];
      assert !OccursAt(prefix, SubjectMarker, i);
    }
  }

  /** The subject id is the first one in the comments page address. */
  lemma FirstSubjectOfPage(prefix: string, id: string)
    requires prefix == Config.MovieCommentsPrefix || prefix == Config.BookCommentsPrefix
    requires id != [] && IsDigits(id)
    ensures |prefix| >= |SubjectMarker|
    ensures FirstSubjectMatch(prefix + id + Config.CommentsSuffix, 0) == |prefix| - |SubjectMarker|
    ensures DigitRun((prefix + id + Config.CommentsSuffix)[|prefix|..]) == id
  {
    hide FirstSubjectMatch, DigitRun;
    var rest := id + Config.CommentsSuffix;
    var s := prefix + rest;
    assert s == prefix + id + Config.CommentsSuffix;
    var host := |prefix| - |SubjectMarker|;
    DigitRunOfDigits(id, Config.CommentsSuffix);
    assert rest[|id|] == '/';
    assert IdThenSlash(rest);
    hide IdThenSlash;
    NoEarlierSubject(prefix, rest);
    assert s[host..host + |SubjectMarker|] == prefix[host..] == SubjectMarker;
    assert s[|prefix|..] == rest;
    assert SubjectMatchAt(s, host);
    hide SubjectMatchAt;
    FirstSubjectIs(s, host);
  }

  /** The comments page leads to itself: it names the same subject, so asking
      for its comments page again gives it back. */
  lemma CommentsUrlFixed(contentUrl: string, contentType: string)
    requires CommentsUrl(contentUrl, contentType).Some?
    ensures CommentsUrl(CommentsUrl(contentUrl, contentType).value, contentType) == CommentsUrl(contentUrl, contentType)
  {
    var i := FirstSubjectMatch(contentUrl, 0);
    var id := DigitRun(contentUrl[i + |SubjectMarker|..]);
    var prefix := CommentsPrefix(contentType);
    FirstSubjectOfPage(prefix, id);
  }

  // ---------------------------------------------------------------------------
  // `get_comments_from_page`

  /** One comment element of a page, as the browser finds it: `None` for a
      part that is missing (a missing content makes the element unreadable). */
  datatype Element = Element(content: Option<string>, time: Option<string>, ratingClass: Option<string>, username: Option<string>)

  /** The comment read from one element: kept only when its stripped content
      is longer than ten characters; a missing time becomes `today`, a missing
      user the anonymous name, a missing rating nothing. */
  function PageComment(e: Element, pageUrl: string, today: string): (r: Option<CommentFile.Comment>)
    ensures r.Some? <==> e.content.Some? && |Strip(e.content.value)| > 10
    ensures r.Some? ==> r.value.content == Strip(e.content.value) && Stripped(r.value.content) && r.value.url == pageUrl
    ensures r.Some? && e.username.None? ==> r.value.username == CommentFile.DefaultUsername
    ensures r.Some? && e.time.None? ==> r.value.time == today
    ensures r.Some? && e.ratingClass.None? ==> r.value.rating.None?
  {
    if e.content.None? then None
    else
      var content := Strip(e.content.value);
      if |content| > 10 then
        StripIsStripped(e.content.value);
        var time := if e.time.Some? then Strip(e.time.value) else today;
        var username := if e.username.Some? then Strip(e.username.value) else CommentFile.DefaultUsername;
        Some(CommentFile.Comment(content, time, username, ExtractRating(e.ratingClass), pageUrl))
      else None
  }

  /** The comments of a page, in element order. */
  function PageComments(elements: seq<Element>, pageUrl: string, today: string): (r: seq<CommentFile.Comment>)
    ensures |r| <= |elements|
  {
    if elements == [] then []
    else
      var init := elements[..|elements| - 1];
      PageComments(init, pageUrl, today) + PageComment(elements[|elements| - 1], pageUrl, today).ToSeq()
  }

  /** A page gives exactly the comments of its readable, long enough elements. */
  lemma {:induction false} PageCommentsKept(elements: seq<Element>, pageUrl: string, today: string)
    ensures forall c :: c in PageComments(elements, pageUrl, today) <==>
      exists k :: 0 <= k < |elements| && PageComment(elements[k], pageUrl, today) == Some(c)
    ensures forall c :: c in PageComments(elements, pageUrl, today) ==> |c.content| > 10 && c.url == pageUrl
  {
    hide PageComment, Strip;
    if elements != [] {
      var init, e := elements[..|elements| - 1], elements[|elements| - 1];
      PageCommentsKept(init, pageUrl, today);
      var r := PageComments(elements, pageUrl, today);
      forall c | exists k :: 0 <= k < |elements| && PageComment(elements[k], pageUrl, today) == Some(c)
        ensures c in r
      {
        var k :| 0 <= k < |elements| && PageComment(elements[k], pageUrl, today) == Some(c);
        if k < |init| {
          assert init[k] == elements[k];
        }
      }
      forall c | c in r
        ensures exists k :: 0 <= k < |elements| && PageComment(elements[k], pageUrl, today) == Some(c)
      {
        if c in PageComments(init, pageUrl, today) {
          var k :| 0 <= k < |init| && PageComment(init[k], pageUrl, today) == Some(c);
          assert elements[k] == init[k];
        } else {
          assert PageComment(elements[|elements| - 1], pageUrl, today) == Some(c);
        }
      }
    }
  }

  lemma PageCommentIs(e: Element, pageUrl: string, today: string)
    ensures PageComment(e, pageUrl, today)
      == if e.content.None? || |Strip(e.content.value)| <= 10 then None
         else Some(CommentFile.Comment(Strip(e.content.value),
                                       if e.time.Some? then Strip(e.time.value) else today,
                                       if e.username.Some? then Strip(e.username.value) else CommentFile.DefaultUsername,
                                       ExtractRating(e.ratingClass), pageUrl))
  {
  }

  lemma PageCommentsStep(elements: seq<Element>, pageUrl: string, today: string, i: nat)
    requires i < |elements|
    ensures PageComments(elements[..i + 1], pageUrl, today)
      == PageComments(elements[..i], pageUrl, today) + PageComment(elements[i], pageUrl, today).ToSeq()
  {
    assert elements[..i + 1][..i] == elements[..i];
  }

  /** `get_comments_from_page(page_url)` over the elements the page shows. */
  method GetCommentsFromPage(elements: seq<Element>, pageUrl: string, today: string) returns (comments: seq<CommentFile.Comment>)
    ensures comments == PageComments(elements, pageUrl, today)
  {
    comments := [];
    var i := 0;
    assert PageComments(elements[..0], pageUrl, today) == [];
    hide PageComments, PageComment, Strip, ExtractRating;
    while i < |elements|
      invariant 0 <= i <= |elements|
      invariant comments == PageComments(elements[..i], pageUrl, today)
    {
      PageCommentsStep(elements, pageUrl, today, i);
      PageCommentIs(elements[i], pageUrl, today);
      ghost var before := comments;
      var element := elements[i];
      if element.content.Some? {
        var content := Strip(element.content.value);
        var time := if element.time.Some? then Strip(element.time.value) else today;
        var rating := ExtractRating(element.ratingClass);
        var username := if element.username.Some? then Strip(element.username.value) else CommentFile.DefaultUsername;
        if content != [] && |content| > 10 {
          assert PageComment(element, pageUrl, today).ToSeq() == [CommentFile.Comment(content, time, username, rating, pageUrl)];
          comments := comments + [CommentFile.Comment(content, time, username, rating, pageUrl)];
        } else {
          assert PageComment(element, pageUrl, today).ToSeq() == [];
        }
      } else {
        assert PageComment(element, pageUrl, today).ToSeq() == [];
      }
      assert comments == before + PageComment(elements[i], pageUrl, today).ToSeq();
      i := i + 1;
    }
    assert elements[..i] == elements;
  }

  // ---------------------------------------------------------------------------
  // `crawl_comments`

  const PageSize: nat := 20

  /** The address of page `k`: `<comments url>?start=<20k>&limit=20`. */
  function PageUrl(commentsUrl: string, k: nat): (r: string)
    ensures StartsWith(r, commentsUrl + "?start=")
    ensures EndsWith(r, "&limit=20")
  {
    var start := commentsUrl + "?start=";
    var r := start + NatToString(k * PageSize) + "&limit=" + NatToString(PageSize);
    assert NatToString(PageSize) == "20";
    assert r[..|start|] == start;
    r
  }

  /** The comments that page `k` gives. */
  function Page(commentsUrl: string, load: string -> seq<Element>, today: string, k: nat): seq<CommentFile.Comment> {
    var url := PageUrl(commentsUrl, k);
    PageComments(load(url), url, today)
  }

  /** Pages `0 .. n-1`, one after the other. */
  function Fetched(commentsUrl: string, load: string -> seq<Element>, today: string, n: nat): seq<CommentFile.Comment> {
    if n == 0 then [] else Fetched(commentsUrl, load, today, n - 1) + Page(commentsUrl, load, today, n - 1)
  }

  /** The paging loop from page `k`, with `total` comments taken so far: stop
      once the target is reached or at the first empty page; a page that
      reaches the target is added and the whole list cut to the target. */
  function CrawlFrom(comments: seq<CommentFile.Comment>, commentsUrl: string, load: string -> seq<Element>, today: string,
                     k: nat, total: nat, maxComments: nat): (r: seq<CommentFile.Comment>)
    ensures comments <= r || (|r| == maxComments && r <= comments)
    ensures r != comments ==> total < maxComments
    decreases maxComments - total
  {
    if total >= maxComments then comments
    else
      var page := Page(commentsUrl, load, today, k);
      if page == [] then comments
      else if total + |page| >= maxComments then
        var all := comments + page;
        SlicePrefix(all, maxComments);
        PrefixesComparable(comments, PySlice(all, 0, maxComments), all);
        PySlice(all, 0, maxComments)
      else
        var all := comments + page;
        var r := CrawlFrom(all, commentsUrl, load, today, k + 1, total + |page|, maxComments);
        assert all <= r || r <= all;
        PrefixesComparable(comments, r, if all <= r then r else all);
        r
  }

  /** Two prefixes of one sequence: the shorter is a prefix of the longer. */
  lemma PrefixesComparable<T>(a: seq<T>, b: seq<T>, c: seq<T>)
    requires a <= c && b <= c
    ensures a <= b || b <= a
  {
    if |a| <= |b| {
      assert b[..|a|] == c[..|a|];
    } else {
      assert a[..|b|] == c[..|b|];
    }
  }

  lemma CrawlStep(comments: seq<CommentFile.Comment>, commentsUrl: string, load: string -> seq<Element>, today: string,
                  k: nat, total: nat, maxComments: nat)
    ensures var page := Page(commentsUrl, load, today, k);
      CrawlFrom(comments, commentsUrl, load, today, k, total, maxComments)
      == if total >= maxComments || page == [] then comments
         else if total + |page| >= maxComments then PySlice(comments + page, 0, maxComments)
         else CrawlFrom(comments + page, commentsUrl, load, today, k + 1, total + |page|, maxComments)
  {
  }

  /** The outcome of the paging loop from page `k` on: it read the pages up to
      some `n`, all non-empty, and either stopped (nothing asked for, or page
      `n` was empty while still short of the target) with the pages added to
      what was there, or page `n - 1` reached the target and the list was cut
      to exactly the target. */
  lemma {:induction false} CrawlFromShape(prev: seq<CommentFile.Comment>, commentsUrl: string, load: string -> seq<Element>, today: string,
                                          k: nat, maxComments: nat) returns (n: nat)
    requires forall j :: 0 <= j < k ==> Page(commentsUrl, load, today, j) != []
    requires k == 0 || |Fetched(commentsUrl, load, today, k)| < maxComments
    ensures k <= n
    ensures forall j :: 0 <= j < n ==> Page(commentsUrl, load, today, j) != []
    ensures n > 0 ==> |Fetched(commentsUrl, load, today, n - 1)| < maxComments
    ensures var all := prev + Fetched(commentsUrl, load, today, n);
      var r := CrawlFrom(prev + Fetched(commentsUrl, load, today, k), commentsUrl, load, today, k,
                         |Fetched(commentsUrl, load, today, k)|, maxComments);
      || (r == all && (maxComments == 0 || (|Fetched(commentsUrl, load, today, n)| < maxComments && Page(commentsUrl, load, today, n) == [])))
      || (0 < maxComments <= |Fetched(commentsUrl, load, today, n)| && r == all[..maxComments])
    decreases maxComments - |Fetched(commentsUrl, load, today, k)|
  {
    hide Page, PySlice;
    var got := Fetched(commentsUrl, load, today, k);
    var page := Page(commentsUrl, load, today, k);
    if |got| >= maxComments {
      n := k;
    } else if page == [] {
      n := k;
    } else {
      assert Fetched(commentsUrl, load, today, k + 1) == got + page;
      assert (prev + got) + page == prev + (got + page);
      if |got| + |page| >= maxComments {
        n := k + 1;
      } else {
        n := CrawlFromShape(prev, commentsUrl, load, today, k + 1, maxComments);
      }
    }
  }

  // ---------------------------------------------------------------------------
  // `save_comments`

  /** The file name with `.txt` added unless it already ends in it. */
  function TxtName(filename: string): (r: string)
    ensures EndsWith(r, ".txt")
    ensures EndsWith(filename, ".txt") ==> r == filename
    ensures !EndsWith(filename, ".txt") ==> r == filename + ".txt"
  {
    if EndsWith(filename, ".txt") then filename else filename + ".txt"
  }

  /** `.txt` cannot overlap a copy of itself, so an occurrence at the very end
      is the last one replaced. */
  lemma {:induction false} ReplaceLastTxt(s: string)
    ensures Replace(s + ".txt", ".txt", ".json") == Replace(s, ".txt", ".json") + ".json"
    decreases |s|
  {
    var t := s + ".txt";
    if |s| == 0 {
      assert t[..4] == ".txt";
      assert t[4..] == [];
    } else if |s| >= 4 && s[..4] == ".txt" {
      assert t[..4] == ".txt";
      assert t[4..] == s[4..] + ".txt";
      ReplaceLastTxt(s[4..]);
    } else {
      assert t[..4] != ".txt" by {
        if |s| < 4 {
          assert t[..4][|s|] == '.';
          assert ".txt"[|s|] != '.';
        } else {
          assert t[..4] == s[..4];
        }
      }
      assert t[1..] == s[1..] + ".txt";
      ReplaceLastTxt(s[1..]);
    }
  }

  /** The JSON copy is written beside the text file: same path, with `.json`
      in place of the final `.txt`. */
  lemma JsonBesideText(filename: string)
    ensures var path := PathJoin("data", TxtName(filename));
      var stem := path[..|path| - 4];
      path == stem + ".txt" && Replace(path, ".txt", ".json") == Replace(stem, ".txt", ".json") + ".json"
  {
    var path := PathJoin("data", TxtName(filename));
    assert path == path[..|path| - 4] + ".txt";
    ReplaceLastTxt(path[..|path| - 4]);
  }

  /** The record of one comment as the writer emits it, line by line. */
  lemma RecordText(c: CommentFile.Comment)
    ensures CommentFile.Record(c)
      == CommentFile.Line(CommentFile.TimeTag, c.time) + "\n"
       + CommentFile.Line(CommentFile.UserTag, c.username) + "\n"
       + (if CommentFile.RatingTruthy(c.rating) then CommentFile.Line(CommentFile.RatingTag, CommentFile.RatingText(c.rating.value)) + "\n" else "")
       + CommentFile.Line(CommentFile.ContentTag, c.content) + "\n"
       + CommentFile.Separator + "\n"
  {
    hide CommentFile.Line, CommentFile.RatingText, Join;
    var a := CommentFile.Line(CommentFile.TimeTag, c.time);
    var b := CommentFile.Line(CommentFile.UserTag, c.username);
    var d := CommentFile.Line(CommentFile.ContentTag, c.content);
    if CommentFile.RatingTruthy(c.rating) {
      var r := CommentFile.Line(CommentFile.RatingTag, CommentFile.RatingText(c.rating.value));
      assert CommentFile.RecordLines(c) == [a, b, r, d];
      JoinFour(a, b, r, d, "\n");
    } else {
      assert CommentFile.RecordLines(c) == [a, b, d];
      JoinThree(a, b, d, "\n");
    }
  }

  lemma FormatStep(cs: seq<CommentFile.Comment>, i: nat)
    requires i < |cs|
    ensures CommentFile.Format(cs[..i + 1]) == CommentFile.Format(cs[..i]) + CommentFile.Record(cs[i])
  {
    assert cs[..i + 1] == cs[..i] + [cs[i]];
    CommentFile.FormatAppend(cs[..i], cs[i]);
  }

  // ---------------------------------------------------------------------------
  // The crawler

  class DoubanCrawler {
    var contentType: string
    var maxComments: nat
    var comments: seq<CommentFile.Comment>

    constructor(contentType: string := "movie", maxComments: nat := Config.MaxComments)
      ensures this.contentType == contentType && this.maxComments == maxComments && comments == []
    {
      this.contentType := contentType;
      this.maxComments := maxComments;
      comments := [];
    }

    /** One page of the paging loop: its address and the comments read from it. */
    static method FetchPage(commentsUrl: string, pageNum: nat, load: string -> seq<Element>, today: string)
      returns (pageComments: seq<CommentFile.Comment>)
      ensures pageComments == Page(commentsUrl, load, today, pageNum)
    {
      var currentUrl := commentsUrl + "?start=" + NatToString(pageNum * PageSize) + "&limit=" + NatToString(PageSize);
      pageComments := GetCommentsFromPage(load(currentUrl), currentUrl, today);
    }

    /** The paging loop of `crawl_comments`, from page 0. */
    method CrawlPages(commentsUrl: string, load: string -> seq<Element>, today: string)
      modifies this
      ensures contentType == old(contentType) && maxComments == old(maxComments)
      ensures comments == CrawlFrom(old(comments), commentsUrl, load, today, 0, 0, maxComments)
    {
      hide CrawlFrom, Page, PySlice;
      var pageNum := 0;
      var total := 0;
      while total < maxComments
        invariant contentType == old(contentType) && maxComments == old(maxComments)
        invariant CrawlFrom(comments, commentsUrl, load, today, pageNum, total, maxComments)
               == CrawlFrom(old(comments), commentsUrl, load, today, 0, 0, maxComments)
        decreases maxComments - total
      {
        var pageComments := FetchPage(commentsUrl, pageNum, load, today);
        CrawlStep(comments, commentsUrl, load, today, pageNum, total, maxComments);
        if pageComments == [] {
          break;
        }
        comments := comments + pageComments;
        total := total + |pageComments|;
        pageNum := pageNum + 1;
        if total >= maxComments {
          comments := PySlice(comments, 0, maxComments);
          break;
        }
      }
      CrawlStep(comments, commentsUrl, load, today, pageNum, total, maxComments);
    }

    /** `crawl_comments(name)`: nothing when the browser cannot start, the
        search finds nothing or the address has no subject id; otherwise the
        pages of the comments page are walked from page 0 and their comments
        added to the list, which is never cleared first, until the target is
        reached or a page is empty. */
    method CrawlComments(driverReady: bool, contentUrl: Option<string>, load: string -> seq<Element>, today: string)
      returns (result: seq<CommentFile.Comment>)
      modifies this
      ensures contentType == old(contentType) && maxComments == old(maxComments)
      ensures !driverReady || contentUrl.None? || CommentsUrl(contentUrl.value, contentType).None? ==>
        result == [] && comments == old(comments)
      ensures driverReady && contentUrl.Some? && CommentsUrl(contentUrl.value, contentType).Some? ==>
        && comments == CrawlFrom(old(comments), CommentsUrl(contentUrl.value, contentType).value, load, today, 0, 0, maxComments)
        && result == comments
    {
      if !driverReady {
        return [];
      }
      if contentUrl.None? {
        return [];
      }
      var commentsUrl := CommentsUrl(contentUrl.value, contentType);
      if commentsUrl.None? {
        return [];
      }
      CrawlPages(commentsUrl.value, load, today);
      result := comments;
    }

    /** The lines `save_comments` writes for one comment. */
    static method WriteRecord(comment: CommentFile.Comment) returns (chunk: string)
      ensures chunk == CommentFile.Record(comment)
    {
      RecordText(comment);
      hide CommentFile.Record, CommentFile.Line, CommentFile.RatingText, StartsWith, EndsWith;
      chunk := CommentFile.Line(CommentFile.TimeTag, comment.time) + "\n";
      chunk := chunk + CommentFile.Line(CommentFile.UserTag, comment.username) + "\n";
      if CommentFile.RatingTruthy(comment.rating) {
        chunk := chunk + CommentFile.Line(CommentFile.RatingTag, CommentFile.RatingText(comment.rating.value)) + "\n";
      }
      chunk := chunk + CommentFile.Line(CommentFile.ContentTag, comment.content) + "\n";
      chunk := chunk + CommentFile.Separator + "\n";
    }

    /** `save_comments(filename)`: the file name gets `.txt` if it lacks it and
        goes in the `data` directory; the text written is the comment file
        of the list, and the JSON copy goes to the same path with every
        `.txt` replaced by `.json`. */
    method SaveComments(filename: string) returns (filepath: string, text: string, jsonPath: string)
      ensures filepath == PathJoin("data", TxtName(filename))
      ensures EndsWith(filepath, ".txt")
      ensures text == CommentFile.Format(comments)
      ensures jsonPath == Replace(filepath, ".txt", ".json")
    {
      assert CommentFile.Format(comments[..0]) == "";
      hide CommentFile.Format, CommentFile.Record, Replace, PathJoin;
      var name := filename;
      if !EndsWith(name, ".txt") {
        name := name + ".txt";
      }
      filepath := PathJoin("data", name);
      text := "";
      var i := 0;
      while i < |comments|
        invariant 0 <= i <= |comments|
        invariant text == CommentFile.Format(comments[..i])
      {
        var chunk := WriteRecord(comments[i]);
        FormatStep(comments, i);
        text := text + chunk;
        i := i + 1;
      }
      assert comments[..i] == comments;
      jsonPath := Replace(filepath, ".txt", ".json");
    }
  }

  /** A crawl from the first page reads pages `0 .. n-1` for some `n`, all
      non-empty and all but the last short of the target. Either it stopped
      without reaching the target (nothing asked for, or page `n` was empty)
      and the result is the old list followed by those pages, or the last
      page reached the target and the result is that list cut to exactly the
      target, old comments included. */
  lemma CrawlOutcome(prev: seq<CommentFile.Comment>, commentsUrl: string, load: string -> seq<Element>, today: string, maxComments: nat)
    returns (n: nat)
    ensures forall j :: 0 <= j < n ==> Page(commentsUrl, load, today, j) != []
    ensures n > 0 ==> |Fetched(commentsUrl, load, today, n - 1)| < maxComments
    ensures var all := prev + Fetched(commentsUrl, load, today, n);
      var r := CrawlFrom(prev, commentsUrl, load, today, 0, 0, maxComments);
      || (r == all && (maxComments == 0 || (|Fetched(commentsUrl, load, today, n)| < maxComments && Page(commentsUrl, load, today, n) == [])))
      || (0 < maxComments <= |Fetched(commentsUrl, load, today, n)| && r == all[..maxComments])
  {
    assert prev + Fetched(commentsUrl, load, today, 0) == prev;
    n := CrawlFromShape(prev, commentsUrl, load, today, 0, maxComments);
  }
}
