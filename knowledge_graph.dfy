/** The comment knowledge-graph builder (`KnowledgeGraphBuilder`).

    Each comment's content is tagged by the part-of-speech tagger (an input here:
    a function from a content to its (word, flag) tokens). Tagged words are
    classified into entity types; entities are counted, keep up to five context
    windows, and those seen fewer than twice are dropped. Two entities are
    related when they occur in the same comment; a relation is kept when it
    holds in at least `min_cooccurrence` comments. The graph has a node per
    entity and an edge per relation whose ends are both nodes. An entity's
    recommendations are its neighbours by decreasing edge weight. */
module KnowledgeGraph {
  import opened PyStr
  import opened PyDict
  import opened StableSort
  import Config
  import CommentFile

  // ---------------------------------------------------------------------------
  // Classification (`_classify_entity`)

  datatype EntityType =
    | Person | Place | Movie | Book | Genre | Emotion | Quality | Element
    | Concept | Attribute | Action

  /** The types that have keyword lists, in the order the classifier tries them. */
  const KeywordOrder: seq<EntityType> := [Person, Movie, Book, Genre, Emotion, Quality, Element]

  function Keywords(t: EntityType): seq<string> {
    match t
    case Person => ["导演", "演员", "主演", "编剧", "制片人", "配音", "作者", "作家"]
    case Movie => ["电影", "影片", "片子", "剧", "纪录片", "动画", "电视剧"]
    case Book => ["小说", "书", "作品", "图书", "文学", "散文", "诗歌"]
    case Genre => ["喜剧", "悲剧", "动作", "科幻", "爱情", "恐怖", "悬疑", "推理", "历史", "传记"]
    case Emotion => ["感动", "震撼", "温暖", "感人", "搞笑", "紧张", "刺激", "浪漫", "忧伤"]
    case Quality => ["经典", "优秀", "出色", "完美", "精彩", "深刻", "有趣", "无聊", "糟糕"]
    case Element => ["剧情", "情节", "演技", "特效", "音乐", "配乐", "摄影", "台词", "节奏", "结局"]
    case _ => []
  }

  /** `any(keyword in word for keyword in keywords)`. */
  predicate AnyIn(keywords: seq<string>, word: string) {
    |keywords| > 0 && (Contains(word, keywords[0]) || AnyIn(keywords[1..], word))
  }

  /** The position of the first type in `order`, from `from` on, with a keyword
      inside `word`, or `|order|` when there is none. */
  function FirstKeywordIndex(word: string, order: seq<EntityType>, from: nat): (i: nat)
    requires from <= |order|
    ensures from <= i <= |order|
    ensures i < |order| ==> AnyIn(Keywords(order[i]), word)
    ensures forall j :: from <= j < i ==> !AnyIn(Keywords(order[j]), word)
    decreases |order| - from
  {
    if from == |order| then from
    else if AnyIn(Keywords(order[from]), word) then from
    else FirstKeywordIndex(word, order, from + 1)
  }

  /** The first type in `order` with a keyword inside `word`: later types are
      only tried when no earlier one matches. */
  function FirstKeywordType(word: string, order: seq<EntityType>): (r: Option<EntityType>)
    ensures r.None? <==> forall i :: 0 <= i < |order| ==> !AnyIn(Keywords(order[i]), word)
    ensures r.Some? ==> r.value in order && AnyIn(Keywords(r.value), word)
    ensures r.Some? ==>
      exists i :: 0 <= i < |order| && order[i] == r.value &&
        (forall j :: 0 <= j < i ==> !AnyIn(Keywords(order[j]), word))
  {
    var i := FirstKeywordIndex(word, order, 0);
    if i < |order| then Some(order[i]) else None
  }

  /** The part-of-speech flags the classifier distinguishes. */
  datatype FlagKind = PersonName | PlaceName | Noun | Adjective | Verb | OtherFlag

  function KindOfFlag(flag: string): FlagKind {
    if flag == "nr" || flag == "nrf" then PersonName
    else if flag == "ns" || flag == "nt" then PlaceName
    else if flag == "n" || flag == "ng" || flag == "nz" then Noun
    else if flag == "a" || flag == "ad" then Adjective
    else if flag == "v" || flag == "vn" then Verb
    else OtherFlag
  }

  /** The entity type of a word tagged with a flag of kind `kind`, or `None`
      when it is no entity. */
  function Classify(word: string, kind: FlagKind): (r: Option<EntityType>)
    ensures r == Some(Place) <==> kind == PlaceName
    ensures r == Some(Attribute) <==> kind == Adjective
    ensures r == Some(Action) <==> kind == Verb
    ensures r == Some(Concept) <==>
      kind == Noun && FirstKeywordType(word, KeywordOrder).None? && |word| >= 2 && !IsDigits(word)
    ensures r == Some(Person) <==>
      kind == PersonName || (kind == Noun && FirstKeywordType(word, KeywordOrder) == Some(Person))
    ensures kind == Noun && FirstKeywordType(word, KeywordOrder).Some? ==> r == FirstKeywordType(word, KeywordOrder)
    ensures r.None? <==>
      kind == OtherFlag || (kind == Noun && FirstKeywordType(word, KeywordOrder).None? && (|word| < 2 || IsDigits(word)))
  {
    match kind
    case PersonName => Some(Person)
    case PlaceName => Some(Place)
    case Noun =>
      (match FirstKeywordType(word, KeywordOrder)
       case Some(t) => Some(t)
       case None => if |word| >= 2 && !IsDigits(word) then Some(Concept) else None)
    case Adjective => Some(Attribute)
    case Verb => Some(Action)
    case OtherFlag => None
  }

  // ---------------------------------------------------------------------------
  // Entities (`extract_entities`)

  /** One (word, flag) pair of the part-of-speech tagger. */
  datatype Token = Token(word: string, flag: string)

  /** What is kept for one entity: its type, how often it was seen, and up to
      five context windows. */
  datatype Entity = Entity(kind: EntityType, frequency: nat, contexts: seq<string>)

  const StopEntities: seq<string> := ["电影", "影片", "片子", "小说", "书", "作品"]
  const MaxContexts: nat := 5
  const ContextRadius: nat := 10
  const MinEntityFrequency: nat := 2

  /** The filter a stripped word passes before it is classified. */
  predicate Eligible(word: string) {
    2 <= |word| <= 8 && !IsDigits(word) && word !in StopEntities
  }

  /** Up to ten characters either side of the first occurrence of `word`. */
  function Context(content: string, word: string): (r: string)
    ensures |r| <= |content|
  {
    var i := Find(content, word);
    var start := if i - ContextRadius < 0 then 0 else i - ContextRadius;
    var end := if |content| < i + |word| + ContextRadius then |content| else i + |word| + ContextRadius;
    PySlice(content, start, end)
  }

  /** A context is a piece of its comment. */
  lemma ContextIsPiece(content: string, word: string)
    ensures Contains(content, Context(content, word))
  {
    hide Find, FindFrom;
    var r := Context(content, word);
    var i := Find(content, word);
    var start := if i - ContextRadius < 0 then 0 else i - ContextRadius;
    var end := if |content| < i + |word| + ContextRadius then |content| else i + |word| + ContextRadius;
    if start < end {
      assert r == content[start..end];
      ContainsAt(content, r, start);
    } else {
      assert r == [];
      ContainsAt(content, r, 0);
    }
  }

  /** When the word occurs in the comment, its context holds the first
      occurrence with at most ten characters either side. */
  lemma ContextHasWord(content: string, word: string)
    requires Contains(content, word)
    ensures Contains(Context(content, word), word)
    ensures |Context(content, word)| <= |word| + 2 * ContextRadius
  {
    hide FindFrom;
    var r := Context(content, word);
    var i := Find(content, word);
    var start := if i - ContextRadius < 0 then 0 else i - ContextRadius;
    var end := if |content| < i + |word| + ContextRadius then |content| else i + |word| + ContextRadius;
    assert OccursAt(content, word, i);
    assert start <= i && i + |word| <= end;
    assert r == content[start..end];
    SliceOfSlice(content, start, end, i - start, i - start + |word|);
    ContainsAt(r, word, i - start);
  }

  /** One classified occurrence of an entity. */
  datatype Hit = Hit(word: string, kind: EntityType, context: string)

  /** What one token of `content` contributes: a hit, or nothing when the stripped
      word fails the filter or is no entity. */
  function HitOf(content: string, tok: Token): (r: Option<Hit>)
    ensures r.Some? ==> Eligible(r.value.word) && r.value.word == Strip(tok.word)
  {
    var word := Strip(tok.word);
    if !Eligible(word) then None
    else
      match Classify(word, KindOfFlag(tok.flag))
      case None => None
      case Some(t) => Some(Hit(word, t, Context(content, word)))
  }

  function TokenHits(content: string, toks: seq<Token>): (r: seq<Hit>)
    ensures forall k :: 0 <= k < |r| ==> Eligible(r[k].word)
  {
    if toks == [] then [] else TokenHits(content, toks[..|toks| - 1]) + HitOf(content, toks[|toks| - 1]).ToSeq()
  }

  /** All hits of the comments, in order; comments with empty content are skipped. */
  function CommentHits(comments: seq<string>, tag: string -> seq<Token>): (r: seq<Hit>)
    ensures forall k :: 0 <= k < |r| ==> Eligible(r[k].word)
  {
    if comments == [] then []
    else
      var c := comments[|comments| - 1];
      CommentHits(comments[..|comments| - 1], tag) + (if c == [] then [] else TokenHits(c, tag(c)))
  }

  /** `self.entities[word]` after one more hit: created with the hit's type,
      counted, and given the hit's context while it has fewer than five. */
  function Record(d: Dict<string, Entity>, h: Hit): (r: Dict<string, Entity>)
    requires Valid(d)
    ensures Valid(r)
  {
    var e := if h.word in d.vals then d.vals[h.word] else Entity(h.kind, 0, []);
    Put(d, h.word, Entity(e.kind, e.frequency + 1, if |e.contexts| < MaxContexts then e.contexts + [h.context] else e.contexts))
  }

  function Accumulate(hits: seq<Hit>): (r: Dict<string, Entity>)
    ensures Valid(r)
  {
    if hits == [] then Empty() else Record(Accumulate(hits[..|hits| - 1]), hits[|hits| - 1])
  }

  /** The filter on low-frequency entities. */
  predicate Frequent(e: Entity) {
    e.frequency >= MinEntityFrequency
  }

  /** The entities `extract_entities` keeps: those seen at least twice. */
  function Extracted(comments: seq<string>, tag: string -> seq<Token>): (r: Dict<string, Entity>)
    ensures Valid(r)
  {
    FilterValues(Accumulate(CommentHits(comments, tag)), Frequent)
  }

  // The meaning of the accumulated entities

  /** The hits of one word, in order. */
  function HitsFor(hits: seq<Hit>, w: string): (r: seq<Hit>)
    ensures forall k :: 0 <= k < |r| ==> r[k].word == w && r[k] in hits
  {
    if hits == [] then []
    else HitsFor(hits[..|hits| - 1], w) + (if hits[|hits| - 1].word == w then [hits[|hits| - 1]] else [])
  }

  function ContextsOf(hs: seq<Hit>): (r: seq<string>)
    ensures |r| == |hs|
  {
    if hs == [] then [] else ContextsOf(hs[..|hs| - 1]) + [hs[|hs| - 1].context]
  }

  /** The first `n` elements, or all when there are fewer. */
  function Take<T>(s: seq<T>, n: nat): (r: seq<T>)
    ensures |r| == if |s| < n then |s| else n
  {
    if |s| <= n then s else s[..n]
  }

  /** The entity that the hits `hs` of one word describe: the type of the first,
      their number, and the first five contexts. */
  function Summary(hs: seq<Hit>): Entity
    requires hs != []
  {
    Entity(hs[0].kind, |hs|, Take(ContextsOf(hs), MaxContexts))
  }

  lemma SummarySnoc(hs: seq<Hit>, h: Hit)
    requires hs != []
    ensures var e := Summary(hs);
      Summary(hs + [h]) == Entity(e.kind, e.frequency + 1, if |e.contexts| < MaxContexts then e.contexts + [h.context] else e.contexts)
  {
    var hs' := hs + [h];
    assert hs'[..|hs'| - 1] == hs;
    var c := ContextsOf(hs);
    assert ContextsOf(hs') == c + [h.context];
    if |c| >= MaxContexts {
      assert (c + [h.context])[..MaxContexts] == c[..MaxContexts];
    }
  }

  lemma RecordOthers(d: Dict<string, Entity>, h: Hit)
    requires Valid(d)
    ensures Record(d, h).vals == d.vals[h.word := Record(d, h).vals[h.word]]
  {
  }

  /** One more hit of a word moves its entry to the summary of one more hit. */
  lemma RecordSummary(d: Dict<string, Entity>, h: Hit, hs: seq<Hit>)
    requires Valid(d)
    requires h.word in d.vals <==> hs != []
    requires h.word in d.vals ==> d.vals[h.word] == Summary(hs)
    ensures Record(d, h).vals[h.word] == Summary(hs + [h])
  {
    if hs == [] {
      assert hs + [h] == [h];
      assert ContextsOf([h]) == [h.context] by {
        assert [h][..0] == [];
      }
    } else {
      SummarySnoc(hs, h);
    }
  }

  /** The accumulated dict lists a word exactly when it has hits, and records
      for it the summary of those hits. */
  lemma {:induction false} AccumulateSummary(hits: seq<Hit>, w: string)
    ensures w in Accumulate(hits).vals <==> HitsFor(hits, w) != []
    ensures w in Accumulate(hits).vals ==> Accumulate(hits).vals[w] == Summary(HitsFor(hits, w))
  {
    hide Summary, Record;
    if hits != [] {
      var init, h := hits[..|hits| - 1], hits[|hits| - 1];
      var d := Accumulate(init);
      assert Accumulate(hits) == Record(d, h);
      RecordOthers(d, h);
      AccumulateSummary(init, w);
      if h.word == w {
        assert HitsFor(hits, w) == HitsFor(init, w) + [h];
        RecordSummary(d, h, HitsFor(init, w));
      } else {
        assert HitsFor(hits, w) == HitsFor(init, w);
      }
    }
  }

  /** The entities kept are exactly the eligible words with at least two hits;
      each has the type of its first hit, its number of hits, and the contexts
      of its first five hits. */
  lemma ExtractedEntities(comments: seq<string>, tag: string -> seq<Token>, w: string)
    ensures w in Extracted(comments, tag).vals <==> |HitsFor(CommentHits(comments, tag), w)| >= MinEntityFrequency
    ensures w in Extracted(comments, tag).vals ==>
      Eligible(w) && Extracted(comments, tag).vals[w] == Summary(HitsFor(CommentHits(comments, tag), w))
  {
    var hits := CommentHits(comments, tag);
    AccumulateSummary(hits, w);
    var hs := HitsFor(hits, w);
    if hs != [] {
      assert hs[0] in hits;
    }
  }

  // ---------------------------------------------------------------------------
  // Relations (`build_relations`)

  /** `tuple(sorted([a, b]))`. */
  function SortedPair(a: string, b: string): (p: (string, string))
    ensures (p.0 == a && p.1 == b) || (p.0 == b && p.1 == a)
    ensures a != b ==> LexLess(p.0, p.1)
  {
    LexTotalIfDiffer(a, b);
    if LexLess(b, a) then (b, a) else (a, b)
  }

  lemma LexTotalIfDiffer(a: string, b: string)
    ensures a != b ==> LexLess(a, b) || LexLess(b, a)
  {
    if a != b {
      LexTotal(a, b);
    }
  }

  /** Sorting a pair forgets its order and nothing else. */
  lemma SortedPairSame(x: string, y: string, a: string, b: string)
    requires a != b
    ensures SortedPair(x, y) == SortedPair(a, b) <==> (x == a && y == b) || (x == b && y == a)
  {
    LexAsymmetric(a, b);
  }

  /** The entities whose text occurs in the content, in the order of `names`. */
  function Present(names: seq<string>, content: string): (r: seq<string>)
    ensures forall e :: e in r <==> e in names && Contains(content, e)
  {
    if names == [] then []
    else
      var init, e := names[..|names| - 1], names[|names| - 1];
      var r := Present(init, content);
      assert forall x :: x in names <==> x in init || x == e by {
        assert names == init + [e];
      }
      if Contains(content, e) then r + [e] else r
  }

  lemma {:induction false} PresentDistinct(names: seq<string>, content: string)
    requires Distinct(names)
    ensures Distinct(Present(names, content))
  {
    if names != [] {
      PresentDistinct(names[..|names| - 1], content);
    }
  }

  /** The pairs `combinations` makes with `s[i]` first, up to position `j`. */
  function Row(s: seq<string>, i: nat, j: nat): seq<(string, string)>
    requires i < |s| && j <= |s|
  {
    if j <= i + 1 then [] else Row(s, i, j - 1) + [SortedPair(s[i], s[j - 1])]
  }

  /** The pairs of `combinations(s, 2)` whose first element is before position `i`. */
  function Combos(s: seq<string>, i: nat): seq<(string, string)>
    requires i <= |s|
  {
    if i == 0 then [] else Combos(s, i - 1) + Row(s, i - 1, |s|)
  }

  /** The relation keys one comment increments. */
  function CommentPairs(names: seq<string>, content: string): seq<(string, string)> {
    if content == [] then []
    else
      var present := Present(names, content);
      Combos(present, |present|)
  }

  /** All increments, comment after comment. */
  function AllPairs(comments: seq<string>, names: seq<string>): seq<(string, string)> {
    if comments == [] then []
    else AllPairs(comments[..|comments| - 1], names) + CommentPairs(names, comments[|comments| - 1])
  }

  /** `self.relations` after the loop: each key counted once per increment. */
  function Cooccurrences(comments: seq<string>, names: seq<string>): (r: Dict<(string, string), nat>)
    ensures Valid(r)
  {
    Tally(AllPairs(comments, names))
  }

  /** The filter on rare relations. */
  predicate Strong(w: nat) {
    w >= Config.MinCooccurrence
  }

  /** `self.relations` after the filter on `min_cooccurrence`. */
  function Relations(comments: seq<string>, names: seq<string>): (r: Dict<(string, string), nat>)
    ensures Valid(r)
  {
    FilterValues(Cooccurrences(comments, names), Strong)
  }

  /** The number of comments whose non-empty content holds both texts. */
  function CountBoth(comments: seq<string>, a: string, b: string): nat {
    if comments == [] then 0
    else
      var c := comments[|comments| - 1];
      CountBoth(comments[..|comments| - 1], a, b) + (if c != [] && Contains(c, a) && Contains(c, b) then 1 else 0)
  }

  /** In a sequence of distinct elements, positions are determined by their elements. */
  lemma DistinctIndex<T>(s: seq<T>, p: nat, q: nat)
    requires Distinct(s) && p < |s| && q < |s| && s[p] == s[q]
    ensures p == q
  {
  }

  /** Where `a` sits at `ia` and `b` at `ib`, the pair of positions `p` and `q`
      sorts to the pair of `a` and `b` exactly when it is those positions. */
  lemma PairAt(s: seq<string>, p: nat, q: nat, ia: nat, ib: nat)
    requires Distinct(s) && p < |s| && q < |s| && ia < |s| && ib < |s| && s[ia] != s[ib]
    ensures SortedPair(s[p], s[q]) == SortedPair(s[ia], s[ib]) <==> (p == ia && q == ib) || (p == ib && q == ia)
  {
    SortedPairSame(s[p], s[q], s[ia], s[ib]);
    if s[p] == s[ia] { DistinctIndex(s, p, ia); }
    if s[p] == s[ib] { DistinctIndex(s, p, ib); }
    if s[q] == s[ia] { DistinctIndex(s, q, ia); }
    if s[q] == s[ib] { DistinctIndex(s, q, ib); }
  }

  /** The row of position `i` up to position `j` holds the pair of the
      elements at `ia` and `ib` once when `i` is the earlier of the two
      positions and the later one is before `j`; otherwise not at all. */
  lemma {:induction false} CountRow(s: seq<string>, i: nat, j: nat, ia: nat, ib: nat)
    requires Distinct(s) && i < |s| && j <= |s| && ia < |s| && ib < |s| && s[ia] != s[ib]
    ensures Occurrences(Row(s, i, j), SortedPair(s[ia], s[ib]))
         == if i == Min(ia, ib) && Max(ia, ib) < j then 1 else 0
    decreases j
  {
    if j > i + 1 {
      hide Row, SortedPair, Distinct, Occurrences;
      CountRow(s, i, j - 1, ia, ib);
      CountRowStep(s, i, j, ia, ib);
    } else {
      assert Row(s, i, j) == [];
    }
  }

  lemma CountRowStep(s: seq<string>, i: nat, j: nat, ia: nat, ib: nat)
    requires Distinct(s) && i + 1 < j <= |s| && ia < |s| && ib < |s| && s[ia] != s[ib]
    requires Occurrences(Row(s, i, j - 1), SortedPair(s[ia], s[ib]))
          == if i == Min(ia, ib) && Max(ia, ib) < j - 1 then 1 else 0
    ensures Occurrences(Row(s, i, j), SortedPair(s[ia], s[ib]))
         == if i == Min(ia, ib) && Max(ia, ib) < j then 1 else 0
  {
    var pair := SortedPair(s[ia], s[ib]);
    RowSnoc(s, i, j, pair);
    hide Row, SortedPair, Distinct, Occurrences;
    PairAt(s, i, j - 1, ia, ib);
    CountStep(Occurrences(Row(s, i, j - 1), pair), Occurrences(Row(s, i, j), pair),
              SortedPair(s[i], s[j - 1]) == pair, i, j - 1, ia, ib, j - 1, j);
  }

  lemma RowSnoc(s: seq<string>, i: nat, j: nat, pair: (string, string))
    requires i + 1 < j <= |s|
    ensures Occurrences(Row(s, i, j), pair) == Occurrences(Row(s, i, j - 1), pair) + (if SortedPair(s[i], s[j - 1]) == pair then 1 else 0)
  {
    var r := Row(s, i, j - 1) + [SortedPair(s[i], s[j - 1])];
    assert Row(s, i, j) == r;
    assert r[..|r| - 1] == Row(s, i, j - 1);
  }

  /** The counting step shared by `CountRow` and `CountCombos`: one more
      increment, taken exactly when position `i` and `k` are the two positions. */
  lemma CountStep(c0: nat, c1: nat, hit: bool, i: int, k: int, ia: int, ib: int, lim0: int, lim1: int)
    requires ia != ib && i < k && lim1 == k + 1 && lim0 == k
    requires c1 == c0 + (if hit then 1 else 0)
    requires hit <==> (i == ia && k == ib) || (i == ib && k == ia)
    requires c0 == if i == Min(ia, ib) && Max(ia, ib) < lim0 then 1 else 0
    ensures c1 == if i == Min(ia, ib) && Max(ia, ib) < lim1 then 1 else 0
  {
  }

  /** The pairs made before position `i` hold the pair of the elements at `ia`
      and `ib` once when the earlier of the two positions is before `i`. */
  lemma {:induction false} CountCombos(s: seq<string>, i: nat, ia: nat, ib: nat)
    requires Distinct(s) && i <= |s| && ia < |s| && ib < |s| && s[ia] != s[ib]
    ensures Occurrences(Combos(s, i), SortedPair(s[ia], s[ib])) == if Min(ia, ib) < i then 1 else 0
  {
    hide Combos, Row, SortedPair, Distinct, Occurrences;
    var p := SortedPair(s[ia], s[ib]);
    if i > 0 {
      CountCombos(s, i - 1, ia, ib);
      CountRow(s, i - 1, |s|, ia, ib);
      CombosSnoc(s, i, p);
    } else {
      CombosNone(s, p);
    }
  }

  lemma CombosNone(s: seq<string>, pair: (string, string))
    ensures Occurrences(Combos(s, 0), pair) == 0
  {
    assert Combos(s, 0) == [];
  }

  lemma CombosSnoc(s: seq<string>, i: nat, pair: (string, string))
    requires 0 < i <= |s|
    ensures Occurrences(Combos(s, i), pair) == Occurrences(Combos(s, i - 1), pair) + Occurrences(Row(s, i - 1, |s|), pair)
  {
    assert Combos(s, i) == Combos(s, i - 1) + Row(s, i - 1, |s|);
    OccurrencesConcat(Combos(s, i - 1), Row(s, i - 1, |s|), pair);
  }

  /** One comment increments the pair of two distinct entities once when its
      content holds both texts, and otherwise not at all. */
  lemma CommentPairsCount(names: seq<string>, content: string, a: string, b: string)
    requires Distinct(names) && a in names && b in names && a != b
    ensures Occurrences(CommentPairs(names, content), SortedPair(a, b))
         == if content != [] && Contains(content, a) && Contains(content, b) then 1 else 0
  {
    if content != [] {
      var present := Present(names, content);
      PresentDistinct(names, content);
      if Contains(content, a) && Contains(content, b) {
        var ia :| 0 <= ia < |present| && present[ia] == a;
        var ib :| 0 <= ib < |present| && present[ib] == b;
        CountCombos(present, |present|, ia, ib);
      } else {
        assert SortedPair(a, b) !in Combos(present, |present|) by {
          CombosKeys(present, |present|);
        }
      }
    }
  }

  lemma {:induction false} AllPairsCount(comments: seq<string>, names: seq<string>, a: string, b: string)
    requires Distinct(names) && a in names && b in names && a != b
    ensures Occurrences(AllPairs(comments, names), SortedPair(a, b)) == CountBoth(comments, a, b)
  {
    if comments != [] {
      var init, c := comments[..|comments| - 1], comments[|comments| - 1];
      AllPairsCount(init, names, a, b);
      CommentPairsCount(names, c, a, b);
      OccurrencesConcat(AllPairs(init, names), CommentPairs(names, c), SortedPair(a, b));
    }
  }

  /** The co-occurrence count of two distinct entities is the number of
      non-empty comments that mention both. */
  lemma CooccurrenceCount(comments: seq<string>, names: seq<string>, a: string, b: string)
    requires Distinct(names) && a in names && b in names && a != b
    ensures SortedPair(a, b) in Cooccurrences(comments, names).vals <==> CountBoth(comments, a, b) > 0
    ensures SortedPair(a, b) in Cooccurrences(comments, names).vals ==>
      Cooccurrences(comments, names).vals[SortedPair(a, b)] == CountBoth(comments, a, b)
  {
    AllPairsCount(comments, names, a, b);
    TallyCounts(AllPairs(comments, names));
  }

  /** A relation is kept exactly when the two entities share at least
      `min_cooccurrence` comments, and its weight is that number. */
  lemma RelationWeight(comments: seq<string>, names: seq<string>, a: string, b: string)
    requires Distinct(names) && a in names && b in names && a != b
    ensures SortedPair(a, b) in Relations(comments, names).vals <==> CountBoth(comments, a, b) >= Config.MinCooccurrence
    ensures SortedPair(a, b) in Relations(comments, names).vals ==>
      Relations(comments, names).vals[SortedPair(a, b)] == CountBoth(comments, a, b)
  {
    CooccurrenceCount(comments, names, a, b);
  }

  /** A key that joins two different entities of `names`, in sorted order. */
  ghost predicate GoodPair(p: (string, string), names: seq<string>) {
    p.0 in names && p.1 in names && LexLess(p.0, p.1)
  }

  lemma {:induction false} CombosKeys(s: seq<string>, i: nat)
    requires Distinct(s) && i <= |s|
    ensures forall p :: p in Combos(s, i) ==> GoodPair(p, s)
  {
    if i > 0 {
      CombosKeys(s, i - 1);
      RowKeys(s, i - 1, |s|);
    }
  }

  lemma {:induction false} RowKeys(s: seq<string>, i: nat, j: nat)
    requires Distinct(s) && i < |s| && j <= |s|
    ensures forall p :: p in Row(s, i, j) ==> GoodPair(p, s)
    decreases j
  {
    if j > i + 1 {
      RowKeys(s, i, j - 1);
      assert s[i] != s[j - 1];
    }
  }

  lemma {:induction false} AllPairsKeys(comments: seq<string>, names: seq<string>)
    requires Distinct(names)
    ensures forall p :: p in AllPairs(comments, names) ==> GoodPair(p, names)
  {
    if comments != [] {
      AllPairsKeys(comments[..|comments| - 1], names);
      var c := comments[|comments| - 1];
      if c != [] {
        var present := Present(names, c);
        PresentDistinct(names, c);
        CombosKeys(present, |present|);
      }
    }
  }

  /** Every relation joins two different entities, listed in sorted order, so
      `RelationWeight` describes every relation there is. */
  lemma RelationKeys(comments: seq<string>, names: seq<string>)
    requires Distinct(names)
    ensures forall p :: p in Relations(comments, names).vals ==>
      GoodPair(p, names) && p == SortedPair(p.0, p.1)
  {
    AllPairsKeys(comments, names);
    TallyCounts(AllPairs(comments, names));
    forall p | p in Relations(comments, names).vals
      ensures GoodPair(p, names) && p == SortedPair(p.0, p.1)
    {
      LexAsymmetric(p.0, p.1);
    }
  }

  // ---------------------------------------------------------------------------
  // Graph (`create_graph`): the networkx graph as its node and edge dicts

  const MaxNodeSize: nat := 1000
  const MaxEdgeWidth: nat := 10

  datatype Node = Node(kind: EntityType, frequency: nat, size: nat)
  datatype Edge = Edge(weight: nat, width: nat)

  /** A node's attributes; its size is the frequency scaled by the multiplier,
      capped at 1000. */
  function NodeOf(e: Entity): (n: Node)
    ensures n.kind == e.kind && n.frequency == e.frequency
    ensures n.size <= MaxNodeSize && n.size <= e.frequency * Config.NodeSizeMultiplier
    ensures n.size == MaxNodeSize || n.size == e.frequency * Config.NodeSizeMultiplier
  {
    Node(e.kind, e.frequency, Min(e.frequency * Config.NodeSizeMultiplier, MaxNodeSize))
  }

  /** An edge's attributes; its width is the weight scaled by the multiplier,
      capped at 10. */
  function EdgeOf(w: nat): (e: Edge)
    ensures e.weight == w
    ensures e.width <= MaxEdgeWidth && e.width <= w * Config.EdgeWidthMultiplier
    ensures e.width == MaxEdgeWidth || e.width == w * Config.EdgeWidthMultiplier
  {
    Edge(w, Min(w * Config.EdgeWidthMultiplier, MaxEdgeWidth))
  }

  /** The nodes added for `keys`, one after the other. */
  function NodesOf(keys: seq<string>, ents: map<string, Entity>): (r: Dict<string, Node>)
    requires forall k :: k in keys ==> k in ents
    ensures Valid(r)
    ensures forall k :: k in r.vals <==> k in keys
    ensures forall k :: k in r.vals ==> r.vals[k] == NodeOf(ents[k])
  {
    if keys == [] then Empty()
    else
      var k := keys[|keys| - 1];
      Put(NodesOf(keys[..|keys| - 1], ents), k, NodeOf(ents[k]))
  }

  /** The node dict lists the keys in the order they were added. */
  lemma {:induction false} NodesOrder(keys: seq<string>, ents: map<string, Entity>)
    requires forall k :: k in keys ==> k in ents
    requires Distinct(keys)
    ensures NodesOf(keys, ents).keys == keys
  {
    if keys != [] {
      NodesOrder(keys[..|keys| - 1], ents);
      assert keys == keys[..|keys| - 1] + [keys[|keys| - 1]];
    }
  }

  /** The edges added for relation keys `keys`: those whose two ends are nodes. */
  function EdgesOf(keys: seq<(string, string)>, rel: map<(string, string), nat>, nodes: map<string, Node>): (r: Dict<(string, string), Edge>)
    requires forall k :: k in keys ==> k in rel
    ensures Valid(r)
    ensures forall p :: p in r.vals <==> p in keys && p.0 in nodes && p.1 in nodes
    ensures forall p :: p in r.vals ==> r.vals[p] == EdgeOf(rel[p])
  {
    if keys == [] then Empty()
    else
      var p := keys[|keys| - 1];
      var init := EdgesOf(keys[..|keys| - 1], rel, nodes);
      if p.0 in nodes && p.1 in nodes then Put(init, p, EdgeOf(rel[p])) else init
  }

  /** The graph `create_graph` builds from the entities and the relations. */
  function GraphNodes(entities: Dict<string, Entity>): (r: Dict<string, Node>)
    requires Valid(entities)
    ensures Valid(r)
  {
    NodesOf(entities.keys, entities.vals)
  }

  function GraphEdges(relations: Dict<(string, string), nat>, nodes: Dict<string, Node>): (r: Dict<(string, string), Edge>)
    requires Valid(relations)
    ensures Valid(r)
  {
    EdgesOf(relations.keys, relations.vals, nodes.vals)
  }

  /** The nodes are exactly the entities, in the same order, each with the
      entity's type and frequency and the capped size. */
  lemma GraphNodesAreEntities(entities: Dict<string, Entity>)
    requires Valid(entities)
    ensures GraphNodes(entities).keys == entities.keys
    ensures forall k :: k in GraphNodes(entities).vals <==> k in entities.vals
    ensures forall k :: k in GraphNodes(entities).vals ==> GraphNodes(entities).vals[k] == NodeOf(entities.vals[k])
  {
    NodesOrder(entities.keys, entities.vals);
  }

  /** An edge exists exactly for a relation whose two ends are nodes; it carries
      the relation's weight. When the relations were built from these entities
      every relation becomes an edge, and no edge is a self-loop. */
  lemma GraphEdgesAreRelations(comments: seq<string>, entities: Dict<string, Entity>)
    requires Valid(entities)
    ensures var rel := Relations(comments, entities.keys);
      var edges := GraphEdges(rel, GraphNodes(entities));
      (forall p :: p in edges.vals <==> p in rel.vals)
      && (forall p :: p in edges.vals ==> edges.vals[p].weight == rel.vals[p] && p.0 != p.1)
  {
    var rel := Relations(comments, entities.keys);
    RelationKeys(comments, entities.keys);
    forall p | p in rel.vals ensures p.0 != p.1 {
      LexIrreflexive(p.0);
    }
  }

  // ---------------------------------------------------------------------------
  // Recommendations (`get_entity_recommendations`)

  /** `graph.neighbors(x)`: the other end of each edge at `x`, in the order the
      edges were added. */
  function Neighbours(keys: seq<(string, string)>, x: string): (r: seq<string>)
    ensures forall n :: n in r <==> (x, n) in keys || (n, x) in keys
  {
    if keys == [] then []
    else
      var init, p := keys[..|keys| - 1], keys[|keys| - 1];
      assert forall q :: q in keys <==> q in init || q == p by {
        assert keys == init + [p];
      }
      Neighbours(init, x) + (if p.0 == x then [p.1] else if p.1 == x then [p.0] else [])
  }

  /** `graph[x][n]['weight']`. */
  function EdgeWeight(edges: map<(string, string), Edge>, x: string, n: string): nat
    requires (x, n) in edges || (n, x) in edges
  {
    if (x, n) in edges then edges[(x, n)].weight else edges[(n, x)].weight
  }

  /** Each neighbour with the weight of its edge to `x`. */
  function Weighted(edges: map<(string, string), Edge>, x: string, ns: seq<string>): (r: seq<(string, nat)>)
    requires forall n :: n in ns ==> (x, n) in edges || (n, x) in edges
    ensures |r| == |ns|
    ensures forall k :: 0 <= k < |r| ==> r[k] == (ns[k], EdgeWeight(edges, x, ns[k]))
  {
    if ns == [] then [] else Weighted(edges, x, ns[..|ns| - 1]) + [(ns[|ns| - 1], EdgeWeight(edges, x, ns[|ns| - 1]))]
  }

  /** The sort key of `sort(key=lambda x: x[1], reverse=True)`: a stable sort
      by decreasing weight is the stable sort by the negated weight. */
  function ByWeightDesc(p: (string, nat)): real {
    -(p.1 as real)
  }

  function NeighbourWeights(edges: Dict<(string, string), Edge>, x: string): (r: seq<(string, nat)>)
    requires Valid(edges)
  {
    Weighted(edges.vals, x, Neighbours(edges.keys, x))
  }

  /** The neighbours and weights that are recommended, best first: none for
      an entity that is not a node, at most `top_n`, each a neighbour, with
      weights that never increase. */
  function Ranked(nodes: Dict<string, Node>, edges: Dict<(string, string), Edge>, x: string, topN: int): (r: seq<(string, nat)>)
    requires Valid(edges)
    ensures x !in nodes.vals ==> r == []
    ensures topN >= 0 ==> |r| <= topN
    ensures forall k :: 0 <= k < |r| ==> r[k].0 in Neighbours(edges.keys, x)
    ensures forall i, j :: 0 <= i < j < |r| ==> r[i].1 >= r[j].1
  {
    if x !in nodes.vals then []
    else
      var ws := NeighbourWeights(edges, x);
      var sorted := Sort(ws, ByWeightDesc);
      SortCorrect(ws, ByWeightDesc);
      SortedMembers(ws, ByWeightDesc);
      NeighbourWeightsNames(edges, x);
      SortedWeights(sorted);
      SlicePrefix(sorted, topN);
      PySlice(sorted, 0, topN)
  }

  function Names(ps: seq<(string, nat)>): (r: seq<string>)
    ensures |r| == |ps|
    ensures forall k :: 0 <= k < |r| ==> r[k] == ps[k].0
  {
    if ps == [] then [] else Names(ps[..|ps| - 1]) + [ps[|ps| - 1].0]
  }

  /** `get_entity_recommendations(x, top_n)`: nothing for an entity that is
      not a node, otherwise at most `top_n` neighbours of `x`. */
  function Recommend(nodes: Dict<string, Node>, edges: Dict<(string, string), Edge>, x: string, topN: int): (r: seq<string>)
    requires Valid(edges)
    ensures x !in nodes.vals ==> r == []
    ensures topN >= 0 ==> |r| <= topN
    ensures forall n :: n in r ==> n in Neighbours(edges.keys, x)
  {
    Names(Ranked(nodes, edges, x, topN))
  }

  /** Nothing is recommended for an entity that is not a node. Otherwise the
      recommendations are the first `top_n` neighbours (all of them when there
      are fewer) of the neighbour list stably sorted by decreasing weight: every
      one is a neighbour, weights never increase along the list, and neighbours
      of equal weight keep the order of the neighbour list. */
  lemma RecommendCorrect(nodes: Dict<string, Node>, edges: Dict<(string, string), Edge>, x: string, topN: int)
    requires Valid(edges)
    ensures x !in nodes.vals ==> Recommend(nodes, edges, x, topN) == []
    ensures var ranked := Ranked(nodes, edges, x, topN);
      var ws := NeighbourWeights(edges, x);
      var sorted := Sort(ws, ByWeightDesc);
      && Recommend(nodes, edges, x, topN) == Names(ranked)
      && (x in nodes.vals && topN >= 0 ==> |ranked| == Min(topN, |ws|))
      && (topN >= 0 ==> |ranked| <= topN)
      && (forall k :: 0 <= k < |ranked| ==> ranked[k].0 in Neighbours(edges.keys, x) && ranked[k] in ws)
      && (forall i, j :: 0 <= i < j < |ranked| ==> ranked[i].1 >= ranked[j].1)
      && ranked == sorted[..|ranked|]
      && (forall v :: WithKey(sorted, ByWeightDesc, v) == WithKey(ws, ByWeightDesc, v))
  {
    var ws := NeighbourWeights(edges, x);
    var sorted := Sort(ws, ByWeightDesc);
    var ranked := Ranked(nodes, edges, x, topN);
    SortCorrect(ws, ByWeightDesc);
    if x in nodes.vals {
      assert ranked == PySlice(sorted, 0, topN);
      hide Sort, PySlice, NeighbourWeights, Ranked, Weighted, Neighbours, SortedBy;
      SlicePrefix(sorted, topN);
      SortedMembers(ws, ByWeightDesc);
      NeighbourWeightsNames(edges, x);
      SortedWeights(sorted);
    }
  }

  lemma NeighbourWeightsNames(edges: Dict<(string, string), Edge>, x: string)
    requires Valid(edges)
    ensures forall p :: p in NeighbourWeights(edges, x) ==> p.0 in Neighbours(edges.keys, x)
  {
  }

  /** Sorted by the negated weight means non-increasing in weight. */
  lemma SortedWeights(s: seq<(string, nat)>)
    requires SortedBy(s, ByWeightDesc)
    ensures forall i, j :: 0 <= i < j < |s| ==> s[i].1 >= s[j].1
  {
    forall i, j | 0 <= i < j < |s| ensures s[i].1 >= s[j].1 {
      assert ByWeightDesc(s[i]) <= ByWeightDesc(s[j]);
    }
  }

  // ---------------------------------------------------------------------------
  // Keyword shadowing: '剧' is a movie keyword, and the movie type is tried
  // before the genre and element types

  /** A word holding none of the keywords' first characters holds no keyword. */
  lemma {:induction false} NoFirstChars(keywords: seq<string>, word: string)
    requires forall k :: 0 <= k < |keywords| ==> |keywords[k]| > 0 && keywords[k][0] !in word
    ensures !AnyIn(keywords, word)
  {
    if keywords != [] {
      MissingChar(word, keywords[0], 0);
      NoFirstChars(keywords[1..], word);
    }
  }

  lemma {:induction false} AnyInAt(keywords: seq<string>, word: string, k: nat)
    requires k < |keywords| && Contains(word, keywords[k])
    ensures AnyIn(keywords, word)
  {
    if k > 0 {
      AnyInAt(keywords[1..], word, k - 1);
    }
  }

  /** A two-character word holding '剧' and no first character of a person
      keyword is a movie when tagged as a noun. */
  lemma JuIsMovie(word: string, at: nat)
    requires |word| == 2 && at < 2 && word[at] == '剧'
    requires forall c :: c in word ==> c !in "导演主编制配作"
    ensures Classify(word, Noun) == Some(Movie)
  {
    forall k | 0 <= k < |Keywords(Person)| ensures |Keywords(Person)[k]| > 0 && Keywords(Person)[k][0] !in word {
      assert Keywords(Person)[k][0] in "导演主编制配作";
    }
    NoFirstChars(Keywords(Person), word);
    assert word[at..at + 1] == "剧";
    ContainsAt(word, "剧", at);
    AnyInAt(Keywords(Movie), word, 3);
    assert FirstKeywordIndex(word, KeywordOrder, 1) == 1;
  }

  /** The element keyword '剧情' and the genre keywords '喜剧' and '悲剧' are all
      classified as movies, because '剧' is a movie keyword and the movie type
      is tried first. */
  lemma PlotIsMovie()
    ensures Classify("剧情", Noun) == Some(Movie)
    ensures Classify("喜剧", Noun) == Some(Movie)
    ensures Classify("悲剧", Noun) == Some(Movie)
  {
    hide Classify;
    JuIsMovie("剧情", 0);
    JuIsMovie("喜剧", 1);
    JuIsMovie("悲剧", 1);
  }

  // ---------------------------------------------------------------------------
  // Saved data (`save_graph_data`): relation keys and statistics

  /** The JSON key `f"{a}-{b}"` of relation `(a, b)`. */
  function RelationKey(p: (string, string)): (k: string)
    ensures |k| == |p.0| + 1 + |p.1|
    ensures k[..|p.0|] == p.0 && k[|p.0|] == '-' && k[|p.0| + 1..] == p.1
  {
    p.0 + "-" + p.1
  }

  /** Keys of relations whose first entity has no '-' are distinct: the first
      '-' of the key ends the first entity. */
  lemma RelationKeyInjective(p: (string, string), q: (string, string))
    requires '-' !in p.0 && '-' !in q.0
    requires RelationKey(p) == RelationKey(q)
    ensures p == q
  {
    if |p.0| != |q.0| {
      assert false;
    }
  }

  /** Without that condition two relations can share a key, and the later
      one's weight replaces the earlier one's in the saved file. */
  lemma RelationKeyCollision()
    ensures RelationKey(("a-", "b")) == RelationKey(("a", "-b"))
  {
  }

  datatype GraphStats = GraphStats(totalEntities: nat, totalRelations: nat, graphNodes: nat, graphEdges: nat, entityTypes: Dict<EntityType, nat>)

  /** The types of the entities, in entity order. */
  function TypesOf(keys: seq<string>, ents: map<string, Entity>): (r: seq<EntityType>)
    requires forall k :: k in keys ==> k in ents
    ensures |r| == |keys|
    ensures forall i :: 0 <= i < |r| ==> r[i] == ents[keys[i]].kind
  {
    if keys == [] then [] else TypesOf(keys[..|keys| - 1], ents) + [ents[keys[|keys| - 1]].kind]
  }

  /** The integer statistics written to `graph_statistics.json`: the type
      counter counts every entity once. */
  function Stats(entities: Dict<string, Entity>, relations: Dict<(string, string), nat>,
                 nodes: Dict<string, Node>, edges: Dict<(string, string), Edge>): (r: GraphStats)
    requires Valid(entities)
    ensures Valid(r.entityTypes)
    ensures SumBy(r.entityTypes, Count) == r.totalEntities
  {
    TallySum(TypesOf(entities.keys, entities.vals));
    GraphStats(|entities.keys|, |relations.keys|, |nodes.keys|, |edges.keys|, Tally(TypesOf(entities.keys, entities.vals)))
  }

  /** A duplicate-free sequence has as many elements as its set. */
  lemma SameElementsSameLength<T>(a: seq<T>, b: seq<T>)
    requires Distinct(a) && Distinct(b)
    requires forall x :: x in a <==> x in b
    ensures |a| == |b|
  {
    DistinctCard(a);
    DistinctCard(b);
    assert (set x | x in a) == (set x | x in b);
  }

  /** For a graph built from the entities and the relations among them, the
      node count is the entity count, the edge count is the relation count,
      and the type counts count the entities of each type. */
  lemma StatsOfBuiltGraph(comments: seq<string>, entities: Dict<string, Entity>)
    requires Valid(entities)
    ensures var relations := Relations(comments, entities.keys);
      var nodes := GraphNodes(entities);
      var st := Stats(entities, relations, nodes, GraphEdges(relations, nodes));
      && st.graphNodes == st.totalEntities
      && st.graphEdges == st.totalRelations
      && (forall t :: t in st.entityTypes.vals <==> t in TypesOf(entities.keys, entities.vals))
      && (forall t :: t in st.entityTypes.vals ==> st.entityTypes.vals[t] == Occurrences(TypesOf(entities.keys, entities.vals), t))
  {
    var relations := Relations(comments, entities.keys);
    var nodes := GraphNodes(entities);
    var edges := GraphEdges(relations, nodes);
    GraphNodesAreEntities(entities);
    GraphEdgesAreRelations(comments, entities);
    assert forall p :: p in edges.keys <==> p in relations.keys;
    SameElementsSameLength(edges.keys, relations.keys);
    TallyCounts(TypesOf(entities.keys, entities.vals));
  }

  // ---------------------------------------------------------------------------
  // Loading (`load_data_from_file`)

  /** The comment contents loaded from `path`: a `.json` file gives the content
      of each decoded record (`json`, or nothing when it cannot be read or
      decoded), a `.txt` file is parsed, and any other name gives nothing. */
  function Loaded(path: string, file: Option<string>, json: Option<seq<string>>): (r: seq<string>)
    ensures !EndsWith(path, ".json") && !EndsWith(path, ".txt") ==> r == []
    ensures EndsWith(path, ".json") ==> r == json.GetOr([])
    ensures !EndsWith(path, ".json") && EndsWith(path, ".txt") ==>
      r == if file.None? then [] else CommentFile.ParseContents(file.value)
  {
    if EndsWith(path, ".json") then json.GetOr([])
    else if EndsWith(path, ".txt") then (if file.None? then [] else CommentFile.ParseContents(file.value))
    else []
  }

  // ---------------------------------------------------------------------------
  // Steps of the folds, for the loops below

  lemma ExtractedIs(comments: seq<string>, tag: string -> seq<Token>)
    ensures Extracted(comments, tag) == FilterValues(Accumulate(CommentHits(comments, tag)), Frequent)
  {
  }

  lemma AccumulateEmpty()
    ensures Accumulate([]) == Empty()
  {
  }

  lemma CommentHitsEmpty(comments: seq<string>, tag: string -> seq<Token>)
    ensures CommentHits(comments[..0], tag) == []
  {
  }

  lemma RelationsIs(comments: seq<string>, names: seq<string>)
    ensures Relations(comments, names) == FilterValues(Tally(AllPairs(comments, names)), Strong)
  {
  }

  lemma TallyEmpty<K(!new)>()
    ensures Tally<K>([]) == Empty()
  {
  }

  lemma AllPairsEmpty(comments: seq<string>, names: seq<string>)
    ensures AllPairs(comments[..0], names) == []
  {
  }

  lemma PresentEmpty(names: seq<string>, content: string)
    ensures Present(names[..0], content) == []
  {
  }

  lemma CombosEmpty(s: seq<string>)
    ensures Combos(s, 0) == []
  {
  }

  lemma CommentPairsIs(names: seq<string>, content: string)
    requires content != []
    ensures CommentPairs(names, content) == Combos(Present(names, content), |Present(names, content)|)
  {
  }

  lemma CommentPairsEmpty(names: seq<string>)
    ensures CommentPairs(names, []) == []
  {
  }

  lemma GraphIs(entities: Dict<string, Entity>, relations: Dict<(string, string), nat>)
    requires Valid(entities) && Valid(relations)
    ensures GraphNodes(entities) == NodesOf(entities.keys, entities.vals)
    ensures forall nodes: Dict<string, Node> :: GraphEdges(relations, nodes) == EdgesOf(relations.keys, relations.vals, nodes.vals)
  {
  }

  lemma NodesEmpty(keys: seq<string>, ents: map<string, Entity>)
    ensures NodesOf(keys[..0], ents) == Empty()
  {
  }

  lemma EdgesEmpty(keys: seq<(string, string)>, rel: map<(string, string), nat>, nodes: map<string, Node>)
    ensures EdgesOf(keys[..0], rel, nodes) == Empty()
  {
  }

  lemma RecommendIs(nodes: Dict<string, Node>, edges: Dict<(string, string), Edge>, x: string, topN: int)
    requires Valid(edges)
    ensures x !in nodes.vals ==> Recommend(nodes, edges, x, topN) == []
    ensures x in nodes.vals ==>
      Recommend(nodes, edges, x, topN) == Names(PySlice(Sort(Weighted(edges.vals, x, Neighbours(edges.keys, x)), ByWeightDesc), 0, topN))
  {
  }

  lemma NeighboursEmpty(keys: seq<(string, string)>, x: string)
    ensures Neighbours(keys[..0], x) == []
  {
  }

  lemma NeighboursAreEdges(edges: Dict<(string, string), Edge>, x: string)
    requires Valid(edges)
    ensures forall n :: n in Neighbours(edges.keys, x) ==> (x, n) in edges.vals || (n, x) in edges.vals
  {
  }

  lemma WeightedEmpty(edges: map<(string, string), Edge>, x: string, ns: seq<string>)
    ensures Weighted(edges, x, ns[..0]) == []
  {
  }

  lemma EdgeWeightIs(edges: map<(string, string), Edge>, x: string, n: string)
    requires (x, n) in edges || (n, x) in edges
    ensures EdgeWeight(edges, x, n) == if (x, n) in edges then edges[(x, n)].weight else edges[(n, x)].weight
  {
  }

  lemma NamesEmpty(ps: seq<(string, nat)>)
    ensures Names(ps[..0]) == []
  {
  }

  lemma TokenHitsEmpty(content: string, toks: seq<Token>)
    ensures TokenHits(content, toks[..0]) == []
  {
  }

  lemma AccumulateSnoc(hits: seq<Hit>, h: Hit)
    ensures Accumulate(hits + [h]) == Record(Accumulate(hits), h)
  {
    assert (hits + [h])[..|hits|] == hits;
  }

  lemma TokenHitsStep(content: string, toks: seq<Token>, j: nat)
    requires j < |toks|
    ensures TokenHits(content, toks[..j + 1]) == TokenHits(content, toks[..j]) + HitOf(content, toks[j]).ToSeq()
  {
    assert toks[..j + 1][..j] == toks[..j];
  }

  lemma CommentHitsStep(comments: seq<string>, tag: string -> seq<Token>, i: nat)
    requires i < |comments|
    ensures CommentHits(comments[..i + 1], tag)
         == CommentHits(comments[..i], tag) + (if comments[i] == [] then [] else TokenHits(comments[i], tag(comments[i])))
  {
    assert comments[..i + 1][..i] == comments[..i];
  }

  lemma TallySnoc<K(!new)>(xs: seq<K>, x: K)
    ensures Tally(xs + [x]) == Bump(Tally(xs), x)
  {
    assert (xs + [x])[..|xs|] == xs;
  }

  lemma PresentStep(names: seq<string>, content: string, k: nat)
    requires k < |names|
    ensures Present(names[..k + 1], content) == Present(names[..k], content) + (if Contains(content, names[k]) then [names[k]] else [])
  {
    assert names[..k + 1][..k] == names[..k];
  }

  lemma AllPairsStep(comments: seq<string>, names: seq<string>, i: nat)
    requires i < |comments|
    ensures AllPairs(comments[..i + 1], names) == AllPairs(comments[..i], names) + CommentPairs(names, comments[i])
  {
    assert comments[..i + 1][..i] == comments[..i];
  }

  lemma NodesStep(keys: seq<string>, ents: map<string, Entity>, i: nat)
    requires i < |keys| && forall k :: k in keys ==> k in ents
    ensures NodesOf(keys[..i + 1], ents) == Put(NodesOf(keys[..i], ents), keys[i], NodeOf(ents[keys[i]]))
  {
    assert keys[..i + 1][..i] == keys[..i];
  }

  lemma EdgesStep(keys: seq<(string, string)>, rel: map<(string, string), nat>, nodes: map<string, Node>, i: nat)
    requires i < |keys| && forall k :: k in keys ==> k in rel
    ensures var p := keys[i];
      EdgesOf(keys[..i + 1], rel, nodes)
      == if p.0 in nodes && p.1 in nodes then Put(EdgesOf(keys[..i], rel, nodes), p, EdgeOf(rel[p])) else EdgesOf(keys[..i], rel, nodes)
  {
    assert keys[..i + 1][..i] == keys[..i];
  }

  lemma NeighboursStep(keys: seq<(string, string)>, x: string, i: nat)
    requires i < |keys|
    ensures var p := keys[i];
      Neighbours(keys[..i + 1], x) == Neighbours(keys[..i], x) + (if p.0 == x then [p.1] else if p.1 == x then [p.0] else [])
  {
    assert keys[..i + 1][..i] == keys[..i];
  }

  /** `self.entities[word]` created when missing, then counted and given the
      context: the same as one `Record`. */
  lemma HitOfIs(content: string, tok: Token)
    ensures var word := Strip(tok.word);
      var t := Classify(word, KindOfFlag(tok.flag));
      HitOf(content, tok) == if Eligible(word) && t.Some? then Some(Hit(word, t.value, Context(content, word))) else None
  {
  }

  lemma RecordSteps(d: Dict<string, Entity>, h: Hit)
    requires Valid(d)
    ensures var d1 := if h.word in d.vals then d else Put(d, h.word, Entity(h.kind, 0, []));
      var e := d1.vals[h.word];
      Put(d1, h.word, Entity(e.kind, e.frequency + 1, if |e.contexts| < MaxContexts then e.contexts + [h.context] else e.contexts))
      == Record(d, h)
  {
  }

  lemma WeightedStep(edges: map<(string, string), Edge>, x: string, ns: seq<string>, k: nat)
    requires k < |ns| && forall n :: n in ns ==> (x, n) in edges || (n, x) in edges
    ensures Weighted(edges, x, ns[..k + 1]) == Weighted(edges, x, ns[..k]) + [(ns[k], EdgeWeight(edges, x, ns[k]))]
  {
    assert ns[..k + 1][..k] == ns[..k];
  }

  lemma RowStart(s: seq<string>, i: nat)
    requires i < |s|
    ensures Row(s, i, i + 1) == []
  {
  }

  lemma RowExtend(s: seq<string>, i: nat, j: nat)
    requires i < j < |s|
    ensures Row(s, i, j + 1) == Row(s, i, j) + [SortedPair(s[i], s[j])]
  {
  }

  lemma CombosExtend(s: seq<string>, i: nat)
    requires i < |s|
    ensures Combos(s, i + 1) == Combos(s, i) + Row(s, i, |s|)
  {
  }

  lemma ExtendTally<K(!new)>(xs: seq<K>, ys: seq<K>, x: K)
    ensures Tally(xs + ys + [x]) == Bump(Tally(xs + ys), x)
  {
    TallySnoc(xs + ys, x);
  }

  lemma NamesStep(ps: seq<(string, nat)>, k: nat)
    requires k < |ps|
    ensures Names(ps[..k + 1]) == Names(ps[..k]) + [ps[k].0]
  {
    assert ps[..k + 1][..k] == ps[..k];
  }

  // ---------------------------------------------------------------------------
  // The builder

  class KnowledgeGraphBuilder {
    /** `comments_data`, as the content of each comment. */
    var comments: seq<string>
    var entities: Dict<string, Entity>
    var relations: Dict<(string, string), nat>
    /** The networkx graph: its nodes and its edges, each in insertion order. */
    var nodes: Dict<string, Node>
    var edges: Dict<(string, string), Edge>

    ghost predicate Wellformed()
      reads this
    {
      Valid(entities) && Valid(relations) && Valid(nodes) && Valid(edges)
    }

    constructor()
      ensures Wellformed()
      ensures comments == [] && entities == Empty() && relations == Empty()
      ensures nodes == Empty() && edges == Empty()
    {
      comments := [];
      entities := Empty();
      relations := Empty();
      nodes := Empty();
      edges := Empty();
    }

    /** `load_data_from_file(path)`; `file` is the text read from `path` (none
        when it cannot be read) and `json` the content of each record decoded
        from it (none when it cannot be decoded). */
    method LoadDataFromFile(path: string, file: Option<string>, json: Option<seq<string>>)
      modifies this
      ensures comments == Loaded(path, file, json)
      ensures entities == old(entities) && relations == old(relations)
      ensures nodes == old(nodes) && edges == old(edges)
    {
      if EndsWith(path, ".json") {
        comments := json.GetOr([]);
      } else if EndsWith(path, ".txt") {
        comments := CommentFile.ParseContentFile(file);
      } else {
        comments := [];
      }
    }

    /** The body of the token loop of `extract_entities`: a word that passes
        the filter and is classified is created when new, counted, and given
        its context while it has fewer than five. */
    method CountToken(content: string, tok: Token, ghost hits: seq<Hit>)
      requires entities == Accumulate(hits)
      modifies this
      ensures entities == Accumulate(hits + HitOf(content, tok).ToSeq())
      ensures comments == old(comments) && relations == old(relations)
      ensures nodes == old(nodes) && edges == old(edges)
    {
      hide Accumulate, Classify, Context, Strip, Record, Eligible, KindOfFlag, HitOf, Put;
      HitOfIs(content, tok);
      var word := Strip(tok.word);
      if Eligible(word) {
        var t := Classify(word, KindOfFlag(tok.flag));
        if t.Some? {
          var h := Hit(word, t.value, Context(content, word));
          RecordSteps(entities, h);
          if word !in entities.vals {
            entities := Put(entities, word, Entity(t.value, 0, []));
          }
          var e := entities.vals[word];
          var context := Context(content, word);
          entities := Put(entities, word, Entity(e.kind, e.frequency + 1,
            if |e.contexts| < MaxContexts then e.contexts + [context] else e.contexts));
          AccumulateSnoc(hits, h);
          return;
        }
      }
      assert hits + [] == hits;
    }

    /** `extract_entities()`: the entities are rebuilt from the comments,
        tagging each non-empty content with `tag`. */
    method ExtractEntities(tag: string -> seq<Token>)
      requires Wellformed()
      modifies this
      ensures Wellformed()
      ensures entities == Extracted(comments, tag)
      ensures comments == old(comments) && relations == old(relations)
      ensures nodes == old(nodes) && edges == old(edges)
    {
      hide Accumulate, CommentHits, TokenHits, Classify, Context, Strip, Record, Eligible, KindOfFlag;
      ExtractedIs(comments, tag);
      entities := Empty();
      AccumulateEmpty();
      CommentHitsEmpty(comments, tag);
      var i := 0;
      while i < |comments|
        invariant 0 <= i <= |comments|
        invariant entities == Accumulate(CommentHits(comments[..i], tag))
        invariant comments == old(comments) && relations == old(relations)
        invariant nodes == old(nodes) && edges == old(edges)
      {
        var content := comments[i];
        CommentHitsStep(comments, tag, i);
        if content != [] {
          var toks := tag(content);
          ghost var before := CommentHits(comments[..i], tag);
          TokenHitsEmpty(content, toks);
          assert before + TokenHits(content, toks[..0]) == before;
          var j := 0;
          while j < |toks|
            invariant 0 <= j <= |toks|
            invariant entities == Accumulate(before + TokenHits(content, toks[..j]))
            invariant comments == old(comments) && relations == old(relations)
            invariant nodes == old(nodes) && edges == old(edges)
          {
            ghost var hits := before + TokenHits(content, toks[..j]);
            TokenHitsStep(content, toks, j);
            CountToken(content, toks[j], hits);
            assert before + TokenHits(content, toks[..j + 1]) == hits + HitOf(content, toks[j]).ToSeq();
            j := j + 1;
          }
          assert toks[..|toks|] == toks;
          assert CommentHits(comments[..i + 1], tag) == before + TokenHits(content, toks);
        } else {
          ghost var before := CommentHits(comments[..i], tag);
          assert before + [] == before;
          assert CommentHits(comments[..i + 1], tag) == before;
        }
        i := i + 1;
      }
      assert comments[..|comments|] == comments;
      entities := FilterValues(entities, Frequent);
    }

    /** `build_relations()`: every pair of entities found together in a comment
        is counted, and the pairs seen fewer than `min_cooccurrence` times are
        dropped. */
    method BuildRelations()
      requires Wellformed()
      modifies this
      ensures Wellformed()
      ensures relations == Relations(comments, entities.keys)
      ensures comments == old(comments) && entities == old(entities)
      ensures nodes == old(nodes) && edges == old(edges)
    {
      hide Tally, AllPairs, CommentPairs, Combos, Row, Present, Contains, SortedPair, Bump;
      RelationsIs(comments, entities.keys);
      relations := Empty();
      var names := entities.keys;
      assert Distinct(names);
      TallyEmpty<(string, string)>();
      AllPairsEmpty(comments, names);
      var i := 0;
      while i < |comments|
        invariant 0 <= i <= |comments|
        invariant relations == Tally(AllPairs(comments[..i], names))
        invariant comments == old(comments) && entities == old(entities)
        invariant nodes == old(nodes) && edges == old(edges)
      {
        var content := comments[i];
        ghost var before := AllPairs(comments[..i], names);
        AllPairsStep(comments, names, i);
        if content != [] {
          var present: seq<string> := [];
          PresentEmpty(names, content);
          var k := 0;
          while k < |names|
            invariant 0 <= k <= |names|
            invariant present == Present(names[..k], content)
            invariant relations == Tally(before)
            invariant comments == old(comments) && entities == old(entities)
            invariant nodes == old(nodes) && edges == old(edges)
          {
            PresentStep(names, content, k);
            if Contains(content, names[k]) {
              present := present + [names[k]];
            }
            k := k + 1;
          }
          assert names[..|names|] == names;
          PresentDistinct(names, content);
          assert Distinct(present);
          CommentPairsIs(names, content);
          CombosEmpty(present);
          assert before + Combos(present, 0) == before;
          var a := 0;
          while a < |present|
            invariant 0 <= a <= |present|
            invariant relations == Tally(before + Combos(present, a))
            invariant comments == old(comments) && entities == old(entities)
            invariant nodes == old(nodes) && edges == old(edges)
          {
            var b := a + 1;
            RowStart(present, a);
            assert before + Combos(present, a) + Row(present, a, b) == before + Combos(present, a);
            while b < |present|
              invariant a + 1 <= b <= |present|
              invariant relations == Tally(before + Combos(present, a) + Row(present, a, b))
              invariant comments == old(comments) && entities == old(entities)
              invariant nodes == old(nodes) && edges == old(edges)
            {
              var pair := SortedPair(present[a], present[b]);
              ExtendTally(before + Combos(present, a), Row(present, a, b), pair);
              RowExtend(present, a, b);
              assert before + Combos(present, a) + Row(present, a, b + 1)
                  == before + Combos(present, a) + Row(present, a, b) + [pair];
              assert present[a] != present[b];
              if present[a] != present[b] {
                relations := Bump(relations, pair);
              }
              b := b + 1;
            }
            CombosExtend(present, a);
            assert before + Combos(present, a) + Row(present, a, |present|) == before + Combos(present, a + 1);
            a := a + 1;
          }
          assert AllPairs(comments[..i + 1], names) == before + Combos(present, |present|);
        } else {
          CommentPairsEmpty(names);
          assert before + [] == before;
          assert AllPairs(comments[..i + 1], names) == before;
        }
        i := i + 1;
      }
      assert comments[..|comments|] == comments;
      relations := FilterValues(relations, Strong);
    }

    /** `create_graph()`: one node per entity and one edge per relation whose
        two ends are nodes. The graph metrics it then computes are not part of
        this model. */
    method CreateGraph()
      requires Wellformed()
      modifies this
      ensures Wellformed()
      ensures nodes == GraphNodes(entities) && edges == GraphEdges(relations, nodes)
      ensures comments == old(comments) && entities == old(entities) && relations == old(relations)
    {
      hide NodesOf, EdgesOf, NodeOf, EdgeOf, Put;
      GraphIs(entities, relations);
      nodes := Empty();
      NodesEmpty(entities.keys, entities.vals);
      var i := 0;
      while i < |entities.keys|
        invariant 0 <= i <= |entities.keys|
        invariant comments == old(comments) && entities == old(entities) && relations == old(relations)
        invariant Valid(entities) && Valid(relations)
        invariant nodes == NodesOf(entities.keys[..i], entities.vals)
      {
        var k := entities.keys[i];
        NodesStep(entities.keys, entities.vals, i);
        nodes := Put(nodes, k, NodeOf(entities.vals[k]));
        i := i + 1;
      }
      assert entities.keys[..|entities.keys|] == entities.keys;
      edges := Empty();
      EdgesEmpty(relations.keys, relations.vals, nodes.vals);
      var j := 0;
      while j < |relations.keys|
        invariant 0 <= j <= |relations.keys|
        invariant comments == old(comments) && entities == old(entities) && relations == old(relations)
        invariant Valid(entities) && Valid(relations)
        invariant edges == EdgesOf(relations.keys[..j], relations.vals, nodes.vals)
        invariant nodes == GraphNodes(entities)
      {
        var p := relations.keys[j];
        EdgesStep(relations.keys, relations.vals, nodes.vals, j);
        if p.0 in nodes.vals && p.1 in nodes.vals {
          edges := Put(edges, p, EdgeOf(relations.vals[p]));
        }
        j := j + 1;
      }
      assert relations.keys[..|relations.keys|] == relations.keys;
    }

    /** `get_entity_recommendations(entity, top_n)`. */
    method GetEntityRecommendations(x: string, topN: int) returns (r: seq<string>)
      requires Wellformed()
      ensures r == Recommend(nodes, edges, x, topN)
    {
      hide Neighbours, Weighted, Sort, Names, PySlice, EdgeWeight;
      RecommendIs(nodes, edges, x, topN);
      if x !in nodes.vals {
        return [];
      }
      var neighbours: seq<string> := [];
      NeighboursEmpty(edges.keys, x);
      var i := 0;
      while i < |edges.keys|
        invariant 0 <= i <= |edges.keys|
        invariant neighbours == Neighbours(edges.keys[..i], x)
      {
        var p := edges.keys[i];
        NeighboursStep(edges.keys, x, i);
        if p.0 == x {
          neighbours := neighbours + [p.1];
        } else if p.1 == x {
          neighbours := neighbours + [p.0];
        }
        i := i + 1;
      }
      assert edges.keys[..|edges.keys|] == edges.keys;
      NeighboursAreEdges(edges, x);
      var weights: seq<(string, nat)> := [];
      WeightedEmpty(edges.vals, x, neighbours);
      var k := 0;
      while k < |neighbours|
        invariant 0 <= k <= |neighbours|
        invariant weights == Weighted(edges.vals, x, neighbours[..k])
      {
        var n := neighbours[k];
        WeightedStep(edges.vals, x, neighbours, k);
        var weight := if (x, n) in edges.vals then edges.vals[(x, n)].weight else edges.vals[(n, x)].weight;
        EdgeWeightIs(edges.vals, x, n);
        weights := weights + [(n, weight)];
        k := k + 1;
      }
      assert neighbours[..|neighbours|] == neighbours;
      weights := Sort(weights, ByWeightDesc);
      var recommendations := PySlice(weights, 0, topN);
      r := [];
      NamesEmpty(recommendations);
      var m := 0;
      while m < |recommendations|
        invariant 0 <= m <= |recommendations|
        invariant r == Names(recommendations[..m])
      {
        NamesStep(recommendations, m);
        r := r + [recommendations[m].0];
        m := m + 1;
      }
      assert recommendations[..|recommendations|] == recommendations;
    }
  }
}
