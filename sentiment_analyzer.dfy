/** The sentiment analyser: every comment with a content gets a score in
    [0, 1] from a scorer (given as a function; `None` when scoring fails, and
    the comment is then skipped), a label from the two thresholds, and its
    score is filed under the comment's period. */
module SentimentAnalyzer {
  import opened PyStr
  import opened PyDict
  import opened StableSort
  import Config
  import CommentFile

  // ---------------------------------------------------------------------------
  // The label rule

  datatype Label = Positive | Negative | Neutral

  /** At or above the positive threshold is positive; otherwise at or below the
      negative threshold is negative; anything between is neutral. */
  function LabelOf(score: real): (l: Label)
    ensures l == Positive <==> score >= Config.PositiveThreshold
    ensures l == Negative <==> score < Config.PositiveThreshold && score <= Config.NegativeThreshold
    ensures l == Neutral <==> Config.NegativeThreshold < score < Config.PositiveThreshold
  {
    if score >= Config.PositiveThreshold then Positive
    else if score <= Config.NegativeThreshold then Negative
    else Neutral
  }

  function Rank(l: Label): nat {
    match l
    case Negative => 0
    case Neutral => 1
    case Positive => 2
  }

  /** A higher score never gets a lower label. */
  lemma LabelMonotone(a: real, b: real)
    requires a <= b
    ensures Rank(LabelOf(a)) <= Rank(LabelOf(b))
  {
  }

  // ---------------------------------------------------------------------------
  // Scoring (`analyze_sentiment`)

  /** The comments that get a score, in order, each with its score: those with
      a non-empty content that the scorer accepts. */
  function Scored(comments: seq<CommentFile.ParsedComment>, score: string -> Option<real>): (r: seq<(CommentFile.ParsedComment, real)>)
    ensures |r| <= |comments|
    ensures forall k :: 0 <= k < |r| ==> r[k].0 in comments && r[k].0.content != [] && score(r[k].0.content) == Some(r[k].1)
  {
    if comments == [] then []
    else
      var init, c := comments[..|comments| - 1], comments[|comments| - 1];
      var r := Scored(init, score);
      assert forall x :: x in init ==> x in comments;
      if c.content == [] then r
      else match score(c.content)
        case None => r
        case Some(s) => r + [(c, s)]
  }

  function CommentsOf(ps: seq<(CommentFile.ParsedComment, real)>): (r: seq<CommentFile.ParsedComment>)
    ensures |r| == |ps|
    ensures forall k :: 0 <= k < |r| ==> r[k] == ps[k].0
  {
    if ps == [] then [] else CommentsOf(ps[..|ps| - 1]) + [ps[|ps| - 1].0]
  }

  function ScoresOf(ps: seq<(CommentFile.ParsedComment, real)>): (r: seq<real>)
    ensures |r| == |ps|
    ensures forall k :: 0 <= k < |r| ==> r[k] == ps[k].1
  {
    if ps == [] then [] else ScoresOf(ps[..|ps| - 1]) + [ps[|ps| - 1].1]
  }

  /** One label per score, by the label rule. */
  function LabelsOf(scores: seq<real>): (r: seq<Label>)
    ensures |r| == |scores|
    ensures forall k :: 0 <= k < |r| ==> r[k] == LabelOf(scores[k])
  {
    if scores == [] then [] else LabelsOf(scores[..|scores| - 1]) + [LabelOf(scores[|scores| - 1])]
  }

  /** `time_sentiment[k]`, empty when missing. */
  function ListAt(d: Dict<string, seq<real>>, k: string): seq<real> {
    if k in d.vals then d.vals[k] else []
  }

  /** `time_sentiment` after the scores were filed under their periods. */
  function Group(ps: seq<(CommentFile.ParsedComment, real)>, timeKey: string -> string): (r: Dict<string, seq<real>>)
    ensures Valid(r)
  {
    if ps == [] then Empty()
    else
      var prev := Group(ps[..|ps| - 1], timeKey);
      var p := ps[|ps| - 1];
      var k := timeKey(p.0.time);
      Put(prev, k, ListAt(prev, k) + [p.1])
  }

  /** The scores of the comments whose period is `k`, in order. */
  function ScoresIn(ps: seq<(CommentFile.ParsedComment, real)>, timeKey: string -> string, k: string): seq<real> {
    if ps == [] then []
    else
      var p := ps[|ps| - 1];
      ScoresIn(ps[..|ps| - 1], timeKey, k) + (if timeKey(p.0.time) == k then [p.1] else [])
  }

  /** The list of a period holds exactly the scores of that period's comments,
      in order: every score is filed once, under its own period. */
  lemma {:induction false} GroupContents(ps: seq<(CommentFile.ParsedComment, real)>, timeKey: string -> string)
    ensures forall k :: ListAt(Group(ps, timeKey), k) == ScoresIn(ps, timeKey, k)
    ensures forall k :: k in Group(ps, timeKey).vals ==> ScoresIn(ps, timeKey, k) != []
  {
    if ps != [] {
      GroupContents(ps[..|ps| - 1], timeKey);
    }
  }

  function Length(s: seq<real>): nat {
    |s|
  }

  /** The period lists together hold as many scores as there are. */
  lemma {:induction false} GroupSizes(ps: seq<(CommentFile.ParsedComment, real)>, timeKey: string -> string)
    ensures SumBy(Group(ps, timeKey), Length) == |ps|
  {
    if ps != [] {
      var init, p := ps[..|ps| - 1], ps[|ps| - 1];
      GroupSizes(init, timeKey);
      var prev := Group(init, timeKey);
      var k := timeKey(p.0.time);
      PutSum(prev, k, ListAt(prev, k) + [p.1], Length);
    }
  }

  lemma ScoredStep(comments: seq<CommentFile.ParsedComment>, score: string -> Option<real>, i: nat)
    requires i < |comments|
    ensures var c := comments[i];
      Scored(comments[..i + 1], score)
      == Scored(comments[..i], score) + (if c.content == [] || score(c.content).None? then [] else [(c, score(c.content).value)])
  {
    assert comments[..i + 1][..i] == comments[..i];
  }

  lemma NothingScored(comments: seq<CommentFile.ParsedComment>, score: string -> Option<real>, timeKey: string -> string)
    requires comments == []
    ensures var ps := Scored(comments, score);
      CommentsOf(ps) == [] && ScoresOf(ps) == [] && LabelsOf(ScoresOf(ps)) == [] && Group(ps, timeKey) == Empty()
  {
  }

  lemma PairsStep(ps: seq<(CommentFile.ParsedComment, real)>, p: (CommentFile.ParsedComment, real), timeKey: string -> string)
    ensures CommentsOf(ps + [p]) == CommentsOf(ps) + [p.0]
    ensures ScoresOf(ps + [p]) == ScoresOf(ps) + [p.1]
    ensures LabelsOf(ScoresOf(ps + [p])) == LabelsOf(ScoresOf(ps)) + [LabelOf(p.1)]
    ensures Group(ps + [p], timeKey) == Put(Group(ps, timeKey), timeKey(p.0.time), ListAt(Group(ps, timeKey), timeKey(p.0.time)) + [p.1])
  {
    assert (ps + [p])[..|ps|] == ps;
    assert ScoresOf(ps + [p])[..|ps|] == ScoresOf(ps);
  }

  // ---------------------------------------------------------------------------
  // The summary (`get_sentiment_summary`, its counts)

  datatype Summary = Summary(total: nat, positive: nat, negative: nat, neutral: nat)

  /** No summary without scores; otherwise the number of labels of each kind. */
  function SentimentSummary(scores: seq<real>, labels: seq<Label>): (r: Option<Summary>)
    ensures r.None? <==> scores == []
  {
    if scores == [] then None
    else Some(Summary(|labels|, Occurrences(labels, Positive), Occurrences(labels, Negative), Occurrences(labels, Neutral)))
  }

  /** Every label is of exactly one kind. */
  lemma {:induction false} LabelPartition(labels: seq<Label>)
    ensures Occurrences(labels, Positive) + Occurrences(labels, Negative) + Occurrences(labels, Neutral) == |labels|
  {
    if labels != [] {
      var last := labels[|labels| - 1];
      LabelPartition(labels[..|labels| - 1]);
      assert last == Positive || last == Negative || last == Neutral;
    }
  }

  /** The three counts add up to the total. */
  lemma SummaryCounts(scores: seq<real>, labels: seq<Label>)
    requires scores != []
    ensures var s := SentimentSummary(scores, labels).value;
      s.positive + s.negative + s.neutral == s.total
  {
    LabelPartition(labels);
  }

  // ---------------------------------------------------------------------------
  // Extreme comments (`get_extreme_comments`)

  function ByScore(p: (CommentFile.ParsedComment, real)): real {
    p.1
  }

  /** `zip(a, b)`: as many pairs as the shorter input has elements. */
  function Zip<A, B>(a: seq<A>, b: seq<B>): (r: seq<(A, B)>)
    ensures |r| == Min(|a|, |b|)
    ensures forall k :: 0 <= k < |r| ==> r[k] == (a[k], b[k])
  {
    if a == [] || b == [] then [] else [(a[0], b[0])] + Zip(a[1..], b[1..])
  }

  datatype Extremes = Extremes(mostPositive: seq<(CommentFile.ParsedComment, real)>, mostNegative: seq<(CommentFile.ParsedComment, real)>)

  /** `sorted_pairs[:n]`. */
  function MostNegative(sorted: seq<(CommentFile.ParsedComment, real)>, n: int): (r: seq<(CommentFile.ParsedComment, real)>)
    ensures |r| <= |sorted| && r == sorted[..|r|]
    ensures n >= 0 ==> |r| == Min(n, |sorted|)
    ensures n < 0 ==> |r| == |sorted| - Min(-n, |sorted|)
  {
    SlicePrefix(sorted, n);
    PySlice(sorted, 0, n)
  }

  /** `sorted_pairs[-n:][::-1]` as written: for `n == 0` the slice `[-0:]` is
      the whole list. */
  function MostPositiveAsWritten(sorted: seq<(CommentFile.ParsedComment, real)>, n: int): (r: seq<(CommentFile.ParsedComment, real)>)
    ensures |r| <= |sorted|
    ensures n == 0 ==> |r| == |sorted|
    ensures n > 0 ==> |r| == Min(n, |sorted|)
    ensures forall k :: 0 <= k < |r| ==> r[k] == sorted[|sorted| - 1 - k]
  {
    Reverse(PySlice(sorted, -n, |sorted|))
  }

  /** The last `n` pairs, best first, and none for `n = 0`. A negative `n`
      keeps the source's slice: all but the first `-n` pairs, best first. */
  function MostPositive(sorted: seq<(CommentFile.ParsedComment, real)>, n: int): (r: seq<(CommentFile.ParsedComment, real)>)
    ensures |r| <= |sorted|
    ensures n >= 0 ==> |r| == Min(n, |sorted|)
    ensures n < 0 ==> |r| == |sorted| - Min(-n, |sorted|)
    ensures forall k :: 0 <= k < |r| ==> r[k] == sorted[|sorted| - 1 - k]
  {
    if n == 0 then [] else Reverse(PySlice(sorted, -n, |sorted|))
  }

  /** The correction changes the source's rule for `n = 0` only. */
  lemma MostPositiveOnlyZero(sorted: seq<(CommentFile.ParsedComment, real)>, n: int)
    ensures MostPositive(sorted, n) == MostPositiveAsWritten(sorted, n) <==> n != 0 || sorted == []
  {
    if n == 0 && sorted != [] {
      assert |MostPositiveAsWritten(sorted, 0)| > 0;
    }
  }

  /** `[-0:]` keeps everything: asking for no positive comments lists them all. */
  lemma ZeroPositiveAsWritten(sorted: seq<(CommentFile.ParsedComment, real)>)
    requires sorted != []
    ensures MostPositiveAsWritten(sorted, 0) == Reverse(sorted)
    ensures |MostPositiveAsWritten(sorted, 0)| == |sorted| > 0
    ensures MostPositive(sorted, 0) == []
  {
  }

  /** `get_extreme_comments` as written: the comments are zipped with the
      scores by position, although the scores skip the comments that were not
      scored. */
  function ExtremeCommentsAsWritten(comments: seq<CommentFile.ParsedComment>, scores: seq<real>, nPositive: int, nNegative: int): (r: Option<Extremes>)
    ensures r.None? <==> scores == []
    ensures r.Some? ==> forall p :: p in r.value.mostNegative || p in r.value.mostPositive ==> p in Zip(comments, scores)
  {
    if scores == [] then None
    else
      var sorted := Sort(Zip(comments, scores), ByScore);
      SortedMembers(Zip(comments, scores), ByScore);
      Some(Extremes(MostPositiveAsWritten(sorted, nPositive), MostNegative(sorted, nNegative)))
  }

  /** A comment without content before a scored one: the zip pairs the first
      comment, which has no score, with the second one's score. */
  lemma ZipMisaligned()
    ensures var comments := [CommentFile.ParsedComment("", "2024-01-01", "a", CommentFile.NoRating),
                             CommentFile.ParsedComment("好看", "2024-01-01", "b", CommentFile.NoRating)];
      var score := (s: string) => Some(0.9);
      var scored := Scored(comments, score);
      var zipped := Zip(comments, ScoresOf(scored));
      && scored == [(comments[1], 0.9)]
      && zipped == [(comments[0], 0.9)]
      && zipped[0].0.content == []
  {
    var comments := [CommentFile.ParsedComment("", "2024-01-01", "a", CommentFile.NoRating),
                     CommentFile.ParsedComment("好看", "2024-01-01", "b", CommentFile.NoRating)];
    var score := (s: string) => Some(0.9);
    assert comments[..1][..0] == [];
    assert Scored(comments[..1], score) == [];
    assert comments[..|comments| - 1] == comments[..1];
  }

  /** `get_extreme_comments(n_positive, n_negative)` on aligned pairs: each score
      with the comment it was computed from. */
  function ExtremeComments(scoredComments: seq<CommentFile.ParsedComment>, scores: seq<real>, nPositive: int, nNegative: int): (r: Option<Extremes>)
    ensures r.None? <==> scores == []
    ensures r.Some? ==> forall p :: p in r.value.mostNegative || p in r.value.mostPositive ==> p in Zip(scoredComments, scores)
  {
    if scores == [] then None
    else
      var sorted := Sort(Zip(scoredComments, scores), ByScore);
      SortedMembers(Zip(scoredComments, scores), ByScore);
      Some(Extremes(MostPositive(sorted, nPositive), MostNegative(sorted, nNegative)))
  }

  /** Taken from a list sorted by ascending score, the most negative are its
      first `n` entries, in ascending order of score. */
  lemma NegativeSide(sorted: seq<(CommentFile.ParsedComment, real)>, n: int)
    requires SortedBy(sorted, ByScore)
    ensures var r := MostNegative(sorted, n);
      && r == sorted[..|r|]
      && (n >= 0 ==> |r| == Min(n, |sorted|))
      && (forall i, j :: 0 <= i < j < |r| ==> r[i].1 <= r[j].1)
  {
    SlicePrefix(sorted, n);
    var r := MostNegative(sorted, n);
    forall i, j | 0 <= i < j < |r| ensures r[i].1 <= r[j].1 {
      assert ByScore(sorted[i]) <= ByScore(sorted[j]);
    }
  }

  /** Taken from a list sorted by ascending score, the most positive come in
      descending order of score. */
  lemma PositiveSide(sorted: seq<(CommentFile.ParsedComment, real)>, n: int)
    requires SortedBy(sorted, ByScore)
    ensures var r := MostPositive(sorted, n);
      forall i, j :: 0 <= i < j < |r| ==> r[i].1 >= r[j].1
  {
    var r := MostPositive(sorted, n);
    forall i, j | 0 <= i < j < |r| ensures r[i].1 >= r[j].1 {
      assert ByScore(sorted[|sorted| - 1 - j]) <= ByScore(sorted[|sorted| - 1 - i]);
    }
  }

  /** Both lists are drawn from the list they were taken from. */
  lemma SidesMembers(sorted: seq<(CommentFile.ParsedComment, real)>, nPositive: int, nNegative: int)
    ensures forall p :: p in MostNegative(sorted, nNegative) ==> p in sorted
    ensures forall p :: p in MostPositive(sorted, nPositive) ==> p in sorted
  {
    SlicePrefix(sorted, nNegative);
    var pos := MostPositive(sorted, nPositive);
    forall p | p in pos ensures p in sorted {
      var k :| 0 <= k < |pos| && pos[k] == p;
      assert p == sorted[|sorted| - 1 - k];
    }
  }

  /** Nothing without scores. Otherwise, over the pairs sorted stably by
      ascending score: the most negative are the first `n_negative`, the most
      positive the last `n_positive` in reverse; each list has `min(n, pairs)`
      entries for `n >= 0`, all taken from the pairs, the first with scores
      that never decrease and the second with scores that never increase. */
  lemma ExtremesCorrect(scoredComments: seq<CommentFile.ParsedComment>, scores: seq<real>, nPositive: int, nNegative: int)
    ensures scores == [] <==> ExtremeComments(scoredComments, scores, nPositive, nNegative).None?
    ensures scores != [] ==>
      var pairs := Zip(scoredComments, scores);
      var sorted := Sort(pairs, ByScore);
      var e := ExtremeComments(scoredComments, scores, nPositive, nNegative).value;
      && e.mostNegative == sorted[..|e.mostNegative|]
      && (nNegative >= 0 ==> |e.mostNegative| == Min(nNegative, |pairs|))
      && (nPositive >= 0 ==> |e.mostPositive| == Min(nPositive, |pairs|))
      && (forall k :: 0 <= k < |e.mostPositive| ==> e.mostPositive[k] == sorted[|sorted| - 1 - k])
      && (forall p :: p in e.mostNegative || p in e.mostPositive ==> p in pairs)
      && (forall i, j :: 0 <= i < j < |e.mostNegative| ==> e.mostNegative[i].1 <= e.mostNegative[j].1)
      && (forall i, j :: 0 <= i < j < |e.mostPositive| ==> e.mostPositive[i].1 >= e.mostPositive[j].1)
      && (forall v :: WithKey(sorted, ByScore, v) == WithKey(pairs, ByScore, v))
  {
    hide Sort, Zip, PySlice, Reverse, SortedBy;
    if scores != [] {
      var pairs := Zip(scoredComments, scores);
      var sorted := Sort(pairs, ByScore);
      SortCorrect(pairs, ByScore);
      SortedMembers(pairs, ByScore);
      NegativeSide(sorted, nNegative);
      PositiveSide(sorted, nPositive);
      SidesMembers(sorted, nPositive, nNegative);
    }
  }

  // ---------------------------------------------------------------------------
  // The analyser

  class SentimentAnalyzer {
    var comments: seq<CommentFile.ParsedComment>
    var scores: seq<real>
    var labels: seq<Label>
    /** `time_sentiment`: the scores of each period. */
    var timeSentiment: Dict<string, seq<real>>
    /** The comment each score was computed from, kept in step with `scores`
        (the correction of the pairing in `get_extreme_comments`). */
    var scoredComments: seq<CommentFile.ParsedComment>

    ghost predicate Wellformed()
      reads this
    {
      |labels| == |scores| && |scoredComments| == |scores| && Valid(timeSentiment)
    }

    constructor()
      ensures Wellformed()
      ensures comments == [] && scores == [] && labels == [] && scoredComments == [] && timeSentiment == Empty()
    {
      comments := [];
      scores := [];
      labels := [];
      timeSentiment := Empty();
      scoredComments := [];
    }

    /** `load_data_from_file(path)`; `today` is the date given to records
        without a time. */
    method LoadDataFromFile(path: string, file: Option<string>, json: Option<seq<CommentFile.ParsedComment>>, today: string)
      modifies this
      ensures comments == CommentFile.Loaded(path, file, json, today)
      ensures scores == old(scores) && labels == old(labels) && timeSentiment == old(timeSentiment)
      ensures scoredComments == old(scoredComments)
    {
      if EndsWith(path, ".json") {
        comments := json.GetOr([]);
      } else if EndsWith(path, ".txt") {
        comments := CommentFile.ParseTxtFile(file, today);
      } else {
        comments := [];
      }
    }

    /** The state that the scored pairs `ps` leave behind. */
    ghost predicate Holds(ps: seq<(CommentFile.ParsedComment, real)>, timeKey: string -> string)
      reads this
    {
      && scoredComments == CommentsOf(ps)
      && scores == ScoresOf(ps)
      && labels == LabelsOf(scores)
      && timeSentiment == Group(ps, timeKey)
    }

    /** One scored comment: its score, its label, and its entry in the list
        of its period. */
    method Record(comment: CommentFile.ParsedComment, s: real, timeKey: string -> string, ghost ps: seq<(CommentFile.ParsedComment, real)>)
      requires Holds(ps, timeKey)
      modifies this
      ensures Holds(ps + [(comment, s)], timeKey)
      ensures comments == old(comments)
    {
      hide CommentsOf, ScoresOf, LabelsOf, Group, Put;
      PairsStep(ps, (comment, s), timeKey);
      scores := scores + [s];
      labels := labels + [LabelOf(s)];
      scoredComments := scoredComments + [comment];
      var key := timeKey(comment.time);
      timeSentiment := Put(timeSentiment, key, ListAt(timeSentiment, key) + [s]);
    }

    /** `analyze_sentiment()`: the results are cleared, then every comment
        with a content that the scorer accepts adds its score, its label and
        its entry in the list of its period. The new state depends on the
        comments alone, so running it twice gives the same state. */
    method AnalyzeSentiment(score: string -> Option<real>, timeKey: string -> string)
      modifies this
      ensures Wellformed()
      ensures Holds(Scored(comments, score), timeKey)
      ensures comments == old(comments)
    {
      hide Scored, CommentsOf, ScoresOf, LabelsOf, Group;
      scores := [];
      labels := [];
      timeSentiment := Empty();
      scoredComments := [];
      var i := 0;
      NothingScored(comments[..0], score, timeKey);
      while i < |comments|
        invariant 0 <= i <= |comments|
        invariant comments == old(comments)
        invariant Holds(Scored(comments[..i], score), timeKey)
      {
        var comment := comments[i];
        ScoredStep(comments, score, i);
        ghost var ps := Scored(comments[..i], score);
        var content := comment.content;
        if content != [] {
          var result := score(content);
          if result.Some? {
            Record(comment, result.value, timeKey, ps);
            assert Scored(comments[..i + 1], score) == ps + [(comment, result.value)];
          } else {
            assert Scored(comments[..i + 1], score) == ps;
          }
        } else {
          assert Scored(comments[..i + 1], score) == ps;
        }
        i := i + 1;
      }
      assert comments[..i] == comments;
    }
  }

  /** After the analysis each score sits with the comment it was computed
      from, there are as many labels as scores, and the period lists hold all
      the scores between them. */
  lemma AnalysisAligned(comments: seq<CommentFile.ParsedComment>, score: string -> Option<real>, timeKey: string -> string)
    ensures var scored := Scored(comments, score);
      && Zip(CommentsOf(scored), ScoresOf(scored)) == scored
      && |LabelsOf(ScoresOf(scored))| == |ScoresOf(scored)|
      && SumBy(Group(scored, timeKey), Length) == |ScoresOf(scored)|
  {
    var scored := Scored(comments, score);
    GroupSizes(scored, timeKey);
  }
}
