/** The text analyser: it cleans each comment, cuts it into words with a
    tokenizer (given as a function from a text to its tokens), keeps the words
    that pass the stopword and length filter, and counts them over all
    comments and per period. The period of a comment comes from its time by a
    given function (the source parses the date and prints year and month). */
module TextAnalyzer {
  import opened PyStr
  import opened PyDict
  import Config
  import CommentFile

  // ---------------------------------------------------------------------------
  // Stopwords (`_load_stopwords`)

  /** The stopwords added whatever the file held. The entry `", "` is what the
      source's `''', '''` denotes: a triple-quoted string holding a comma and
      a space. */
  const ExtraStopwords: set<string> := {
    "的", "了", "在", "是", "我", "有", "和", "就", "不", "人", "都", "一", "上",
    "也", "很", "到", "说", "要", "去", "你", "会", "着", "没有", "看", "好", "还",
    "这", "来", "电影", "影片", "片子", "图书", "书", "小说", "作品", "故事",
    "觉得", "感觉", "真的", "确实", "应该", "可能", "比较", "非常", "特别", "挺",
    "太", "最", "更", "还是", "但是", "不过", "虽然", "如果", "因为", "所以",
    "然后", "而且", "或者", "以及", "对于", "关于", "。", "，", "！", "？", "；",
    "：", "\"", ", ", "（", "）", "【", "】", "《", "》", "、", "…"
  }

  /** Each element stripped, in order. */
  function StripAll(xs: seq<string>): (r: seq<string>)
    ensures |r| == |xs|
    ensures forall k :: 0 <= k < |r| ==> r[k] == Strip(xs[k])
  {
    if xs == [] then [] else StripAll(xs[..|xs| - 1]) + [Strip(xs[|xs| - 1])]
  }

  lemma StripAllStep(xs: seq<string>, i: nat)
    requires i < |xs|
    ensures StripAll(xs[..i + 1]) == StripAll(xs[..i]) + [Strip(xs[i])]
  {
    assert xs[..i + 1][..i] == xs[..i];
  }

  /** The stopwords: the non-blank stripped lines of the stopword file (`file`
      is its text, none when it is missing or cannot be read), and the extra
      words. */
  function Stopwords(file: Option<string>): (r: set<string>)
    ensures ExtraStopwords <= r
    ensures file.None? ==> r == ExtraStopwords
    ensures file.Some? ==> forall w :: w in r <==> w in ExtraStopwords || (w != [] && w in StripAll(Split(file.value, "\n")))
  {
    if file.None? then ExtraStopwords
    else (set w | w in StripAll(Split(file.value, "\n")) && w != []) + ExtraStopwords
  }

  // ---------------------------------------------------------------------------
  // Segmentation (`segment_text`)

  /** The CJK range the cleaning keeps, U+4E00 to U+9FA5. */
  predicate IsHan(c: char) {
    '\U{4E00}' <= c <= '\U{9FA5}'
  }

  predicate IsAsciiAlnum(c: char) {
    'a' <= c <= 'z' || 'A' <= c <= 'Z' || '0' <= c <= '9'
  }

  predicate Kept(c: char) {
    IsHan(c) || IsAsciiAlnum(c)
  }

  /** The cleaning: every character outside the kept classes becomes one space,
      so the length and the place of every kept character are preserved. */
  function Clean(text: string): (r: string)
    ensures |r| == |text|
    ensures forall i :: 0 <= i < |r| ==> if Kept(text[i]) then r[i] == text[i] else r[i] == ' '
  {
    if text == [] then []
    else
      var c := text[|text| - 1];
      Clean(text[..|text| - 1]) + [if Kept(c) then c else ' ']
  }

  /** Cleaning a cleaned text changes nothing. */
  lemma CleanIdempotent(text: string)
    ensures Clean(Clean(text)) == Clean(text)
  {
    var once := Clean(text);
    var twice := Clean(once);
    forall i | 0 <= i < |once| ensures twice[i] == once[i] {
      assert !Kept(' ');
    }
  }

  /** The word filter: non-empty, no stopword, between the configured lengths,
      and not all digits. */
  predicate Keep(word: string, stopwords: set<string>) {
    && word != []
    && word !in stopwords
    && Config.MinWordLength <= |word| <= Config.MaxWordLength
    && !IsDigits(word)
  }

  /** The words of `words` that pass the filter, in order. */
  function KeepWords(words: seq<string>, stopwords: set<string>): (r: seq<string>)
    ensures |r| <= |words|
    ensures forall w :: w in r <==> w in words && Keep(w, stopwords)
  {
    if words == [] then []
    else
      var init, w := words[..|words| - 1], words[|words| - 1];
      assert forall x :: x in words <==> x in init || x == w by {
        assert words == init + [w];
      }
      KeepWords(init, stopwords) + (if Keep(w, stopwords) then [w] else [])
  }

  /** Every occurrence of a word that passes the filter is kept, and no
      occurrence of one that fails it. */
  lemma {:induction false} KeepWordsCounts(words: seq<string>, stopwords: set<string>, w: string)
    ensures Occurrences(KeepWords(words, stopwords), w) == if Keep(w, stopwords) then Occurrences(words, w) else 0
  {
    if words != [] {
      var init, x := words[..|words| - 1], words[|words| - 1];
      KeepWordsCounts(init, stopwords, w);
      OccurrencesConcat(KeepWords(init, stopwords), if Keep(x, stopwords) then [x] else [], w);
      assert Occurrences([x], w) == if x == w then 1 else 0 by {
        assert [x][..0] == [];
      }
    }
  }

  lemma KeepWordsSnoc(words: seq<string>, w: string, stopwords: set<string>)
    ensures KeepWords(words + [w], stopwords) == KeepWords(words, stopwords) + (if Keep(w, stopwords) then [w] else [])
  {
    assert (words + [w])[..|words|] == words;
  }

  /** `xs` is `ys` at the strictly increasing positions `idx`. */
  ghost predicate SubsequenceAt<T>(xs: seq<T>, ys: seq<T>, idx: seq<nat>) {
    && |idx| == |xs|
    && (forall k :: 0 <= k < |idx| ==> idx[k] < |ys| && ys[idx[k]] == xs[k])
    && (forall k, l :: 0 <= k < l < |idx| ==> idx[k] < idx[l])
  }

  /** The kept words are an order-preserving subsequence of the words. */
  lemma {:induction false} KeepWordsSubsequence(words: seq<string>, stopwords: set<string>) returns (idx: seq<nat>)
    ensures SubsequenceAt(KeepWords(words, stopwords), words, idx)
  {
    if words == [] {
      idx := [];
    } else {
      var init, w := words[..|words| - 1], words[|words| - 1];
      var idx0 := KeepWordsSubsequence(init, stopwords);
      if Keep(w, stopwords) {
        idx := idx0 + [|words| - 1];
      } else {
        idx := idx0;
      }
    }
  }

  /** What `segment_text(text)` returns: words that pass the filter, no more
      of them than the tokenizer gave. */
  function Segment(text: string, stopwords: set<string>, tokenize: string -> seq<string>): (r: seq<string>)
    ensures |r| <= |tokenize(Clean(text))|
    ensures forall w :: w in r ==> Keep(w, stopwords)
  {
    KeepWords(StripAll(tokenize(Clean(text))), stopwords)
  }

  /** Every word of a segmentation passes the filter; it holds exactly the
      stripped tokens of the cleaned text that pass, in their order. */
  lemma SegmentCorrect(text: string, stopwords: set<string>, tokenize: string -> seq<string>) returns (idx: seq<nat>)
    ensures var tokens := StripAll(tokenize(Clean(text)));
      && (forall w :: w in Segment(text, stopwords, tokenize) <==> w in tokens && Keep(w, stopwords))
      && (forall w :: Occurrences(Segment(text, stopwords, tokenize), w) ==
            if Keep(w, stopwords) then Occurrences(tokens, w) else 0)
      && SubsequenceAt(Segment(text, stopwords, tokenize), tokens, idx)
  {
    var tokens := StripAll(tokenize(Clean(text)));
    idx := KeepWordsSubsequence(tokens, stopwords);
    forall w ensures Occurrences(Segment(text, stopwords, tokenize), w) ==
        if Keep(w, stopwords) then Occurrences(tokens, w) else 0 {
      KeepWordsCounts(tokens, stopwords, w);
    }
  }

  // ---------------------------------------------------------------------------
  // Word frequencies (`analyze_word_frequency`)

  /** The words of all comments, comment after comment (`all_words`). */
  function AllWords(comments: seq<CommentFile.ParsedComment>, stopwords: set<string>, tokenize: string -> seq<string>): seq<string> {
    if comments == [] then []
    else AllWords(comments[..|comments| - 1], stopwords, tokenize) + Segment(comments[|comments| - 1].content, stopwords, tokenize)
  }

  /** A per-period table of counters, each a valid dict. */
  ghost predicate ValidBuckets(b: Dict<string, Dict<string, nat>>) {
    Valid(b) && forall k :: k in b.vals ==> Valid(b.vals[k])
  }

  /** `time_word_freq[k]`, an empty counter when missing. */
  function Bucket(b: Dict<string, Dict<string, nat>>, k: string): (r: Dict<string, nat>)
    requires ValidBuckets(b)
    ensures Valid(r)
  {
    if k in b.vals then b.vals[k] else Empty()
  }

  /** `time_word_freq[k][w]`, zero when either is missing. */
  function BucketCount(b: Dict<string, Dict<string, nat>>, k: string, w: string): nat {
    if k in b.vals then Get(b.vals[k], w) else 0
  }

  /** The table after the words of `comments` were added to the period of each. */
  function AddBuckets(b: Dict<string, Dict<string, nat>>, comments: seq<CommentFile.ParsedComment>,
                      stopwords: set<string>, tokenize: string -> seq<string>, timeKey: string -> string): (r: Dict<string, Dict<string, nat>>)
    requires ValidBuckets(b)
    ensures ValidBuckets(r)
  {
    if comments == [] then b
    else
      var prev := AddBuckets(b, comments[..|comments| - 1], stopwords, tokenize, timeKey);
      var c := comments[|comments| - 1];
      var k := timeKey(c.time);
      Put(prev, k, BumpAll(Bucket(prev, k), Segment(c.content, stopwords, tokenize)))
  }

  /** The period of each comment. */
  function Periods(comments: seq<CommentFile.ParsedComment>, timeKey: string -> string): (r: seq<string>)
    ensures |r| == |comments|
    ensures forall i :: 0 <= i < |r| ==> r[i] == timeKey(comments[i].time)
  {
    if comments == [] then [] else Periods(comments[..|comments| - 1], timeKey) + [timeKey(comments[|comments| - 1].time)]
  }

  /** The words of the comments whose period is `k`. */
  function WordsIn(comments: seq<CommentFile.ParsedComment>, stopwords: set<string>, tokenize: string -> seq<string>,
                   timeKey: string -> string, k: string): seq<string> {
    if comments == [] then []
    else
      var c := comments[|comments| - 1];
      WordsIn(comments[..|comments| - 1], stopwords, tokenize, timeKey, k)
      + (if timeKey(c.time) == k then Segment(c.content, stopwords, tokenize) else [])
  }

  /** Each comment's words go to the counter of its own period and no other;
      the periods present are the old ones and those of the comments. Nothing
      is reset: the old counts are kept and added to. */
  lemma {:induction false} BucketCounts(b: Dict<string, Dict<string, nat>>, comments: seq<CommentFile.ParsedComment>,
                                        stopwords: set<string>, tokenize: string -> seq<string>, timeKey: string -> string)
    requires ValidBuckets(b)
    ensures var r := AddBuckets(b, comments, stopwords, tokenize, timeKey);
      && (forall k :: k in r.vals <==> k in b.vals || k in Periods(comments, timeKey))
      && (forall k, w :: BucketCount(r, k, w) == BucketCount(b, k, w) + Occurrences(WordsIn(comments, stopwords, tokenize, timeKey, k), w))
  {
    hide Segment;
    if comments != [] {
      var init, c := comments[..|comments| - 1], comments[|comments| - 1];
      BucketCounts(b, init, stopwords, tokenize, timeKey);
      var prev := AddBuckets(b, init, stopwords, tokenize, timeKey);
      var key := timeKey(c.time);
      var words := Segment(c.content, stopwords, tokenize);
      BumpAllCounts(Bucket(prev, key), words);
      assert Periods(comments, timeKey) == Periods(init, timeKey) + [key];
      forall k, w
        ensures BucketCount(AddBuckets(b, comments, stopwords, tokenize, timeKey), k, w)
             == BucketCount(b, k, w) + Occurrences(WordsIn(comments, stopwords, tokenize, timeKey, k), w)
      {
        OccurrencesConcat(WordsIn(init, stopwords, tokenize, timeKey, k), if key == k then words else [], w);
      }
    }
  }

  /** `Counter(all_words)`: every word with the number of its occurrences. */
  lemma WordFrequencies(comments: seq<CommentFile.ParsedComment>, stopwords: set<string>, tokenize: string -> seq<string>)
    ensures var freq := Tally(AllWords(comments, stopwords, tokenize));
      && (forall w :: w in freq.vals <==> w in AllWords(comments, stopwords, tokenize))
      && (forall w :: w in freq.vals ==> freq.vals[w] == Occurrences(AllWords(comments, stopwords, tokenize), w))
  {
    TallyCounts(AllWords(comments, stopwords, tokenize));
  }

  // ---------------------------------------------------------------------------
  // The report (`get_analysis_report`, its basic statistics)

  datatype BasicStats = BasicStats(totalComments: nat, totalWords: nat, uniqueWords: nat, avgWordsPerComment: real, timePeriods: nat)

  function Report(comments: seq<CommentFile.ParsedComment>, wordFreq: Dict<string, nat>,
                  timeWordFreq: Dict<string, Dict<string, nat>>): (r: BasicStats)
    requires Valid(wordFreq)
    ensures comments == [] ==> r.avgWordsPerComment == 0.0
  {
    var total := SumBy(wordFreq, Count);
    BasicStats(|comments|, total, |wordFreq.keys|,
      if comments == [] then 0.0 else total as real / |comments| as real, |timeWordFreq.keys|)
  }

  /** After the analysis the report counts every kept word once per occurrence,
      the distinct words once each, and the average is 0 without comments. */
  lemma ReportOfAnalysis(comments: seq<CommentFile.ParsedComment>, stopwords: set<string>, tokenize: string -> seq<string>,
                         timeWordFreq: Dict<string, Dict<string, nat>>)
    ensures var words := AllWords(comments, stopwords, tokenize);
      var r := Report(comments, Tally(words), timeWordFreq);
      && r.totalComments == |comments|
      && r.totalWords == |words|
      && r.uniqueWords == |set w | w in words|
      && r.avgWordsPerComment == (if comments == [] then 0.0 else |words| as real / |comments| as real)
      && r.timePeriods == |timeWordFreq.keys|
  {
    var words := AllWords(comments, stopwords, tokenize);
    TallySum(words);
    TallySize(words);
  }

  // ---------------------------------------------------------------------------
  // The analyser

  lemma AllWordsStep(comments: seq<CommentFile.ParsedComment>, stopwords: set<string>, tokenize: string -> seq<string>, i: nat)
    requires i < |comments|
    ensures AllWords(comments[..i + 1], stopwords, tokenize) == AllWords(comments[..i], stopwords, tokenize) + Segment(comments[i].content, stopwords, tokenize)
  {
    assert comments[..i + 1][..i] == comments[..i];
  }

  lemma AddBucketsStep(b: Dict<string, Dict<string, nat>>, comments: seq<CommentFile.ParsedComment>,
                       stopwords: set<string>, tokenize: string -> seq<string>, timeKey: string -> string, i: nat)
    requires ValidBuckets(b) && i < |comments|
    ensures var prev := AddBuckets(b, comments[..i], stopwords, tokenize, timeKey);
      var k := timeKey(comments[i].time);
      AddBuckets(b, comments[..i + 1], stopwords, tokenize, timeKey)
      == Put(prev, k, BumpAll(Bucket(prev, k), Segment(comments[i].content, stopwords, tokenize)))
  {
    assert comments[..i + 1][..i] == comments[..i];
  }

  class TextAnalyzer {
    var stopwords: set<string>
    var comments: seq<CommentFile.ParsedComment>
    /** `word_freq`, a Counter. */
    var wordFreq: Dict<string, nat>
    /** `time_word_freq`, a defaultdict of Counters keyed by period. */
    var timeWordFreq: Dict<string, Dict<string, nat>>

    ghost predicate Wellformed()
      reads this
    {
      Valid(wordFreq) && ValidBuckets(timeWordFreq)
    }

    /** A new analyser; `stopwordFile` is the text of the stopword file, none
        when it is missing or cannot be read. */
    constructor(stopwordFile: Option<string>)
      ensures Wellformed()
      ensures stopwords == Stopwords(stopwordFile)
      ensures comments == [] && wordFreq == Empty() && timeWordFreq == Empty()
    {
      hide Stopwords;
      stopwords := Stopwords(stopwordFile);
      comments := [];
      wordFreq := Empty();
      timeWordFreq := Empty();
    }

    /** `load_data_from_file(path)`; `today` is the date given to records
        without a time. */
    method LoadDataFromFile(path: string, file: Option<string>, json: Option<seq<CommentFile.ParsedComment>>, today: string)
      modifies this
      ensures comments == CommentFile.Loaded(path, file, json, today)
      ensures stopwords == old(stopwords) && wordFreq == old(wordFreq) && timeWordFreq == old(timeWordFreq)
    {
      if EndsWith(path, ".json") {
        comments := json.GetOr([]);
      } else if EndsWith(path, ".txt") {
        comments := CommentFile.ParseTxtFile(file, today);
      } else {
        comments := [];
      }
    }

    /** `segment_text(text)`. */
    method SegmentText(text: string, tokenize: string -> seq<string>) returns (words: seq<string>)
      ensures words == Segment(text, stopwords, tokenize)
    {
      hide KeepWords, StripAll, Strip;
      var cleaned := Clean(text);
      var tokens := tokenize(cleaned);
      words := [];
      var i := 0;
      assert tokens[..0] == [];
      while i < |tokens|
        invariant 0 <= i <= |tokens|
        invariant words == KeepWords(StripAll(tokens[..i]), stopwords)
      {
        var word := Strip(tokens[i]);
        StripAllStep(tokens, i);
        KeepWordsSnoc(StripAll(tokens[..i]), word, stopwords);
        if Keep(word, stopwords) {
          words := words + [word];
        }
        i := i + 1;
      }
      assert tokens[..i] == tokens;
    }

    /** The body of the comment loop of `analyze_word_frequency`: the comment's
        words, which are also added to the counter of its period. */
    method CountComment(comment: CommentFile.ParsedComment, tokenize: string -> seq<string>, timeKey: string -> string)
      returns (words: seq<string>)
      requires ValidBuckets(timeWordFreq)
      modifies this
      ensures words == Segment(comment.content, stopwords, tokenize)
      ensures var k := timeKey(comment.time);
        timeWordFreq == Put(old(timeWordFreq), k, BumpAll(Bucket(old(timeWordFreq), k), words))
      ensures comments == old(comments) && stopwords == old(stopwords) && wordFreq == old(wordFreq)
    {
      words := SegmentText(comment.content, tokenize);
      var key := timeKey(comment.time);
      timeWordFreq := Put(timeWordFreq, key, BumpAll(Bucket(timeWordFreq, key), words));
    }

    /** `analyze_word_frequency()`: the counter of all words is rebuilt, and
        each comment's words are added to the counter of its period. */
    method AnalyzeWordFrequency(tokenize: string -> seq<string>, timeKey: string -> string)
      requires Wellformed()
      modifies this
      ensures Wellformed()
      ensures wordFreq == Tally(AllWords(comments, stopwords, tokenize))
      ensures timeWordFreq == AddBuckets(old(timeWordFreq), comments, stopwords, tokenize, timeKey)
      ensures comments == old(comments) && stopwords == old(stopwords)
    {
      ghost var start := timeWordFreq;
      var allWords: seq<string> := [];
      var i := 0;
      assert comments[..0] == [];
      while i < |comments|
        invariant 0 <= i <= |comments|
        invariant comments == old(comments) && stopwords == old(stopwords)
        invariant allWords == AllWords(comments[..i], stopwords, tokenize)
        invariant ValidBuckets(start)
        invariant timeWordFreq == AddBuckets(start, comments[..i], stopwords, tokenize, timeKey)
      {
        hide AllWords, AddBuckets, Segment, BumpAll, Put, Bucket, Tally, KeepWords, StripAll, Clean;
        var comment := comments[i];
        var words := CountComment(comment, tokenize, timeKey);
        AllWordsStep(comments, stopwords, tokenize, i);
        AddBucketsStep(start, comments, stopwords, tokenize, timeKey, i);
        allWords := allWords + words;
        i := i + 1;
      }
      assert comments[..i] == comments;
      wordFreq := Tally(allWords);
    }
  }
}
