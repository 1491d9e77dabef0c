/** The dictionary work of `src/wordcloud_generator.py`: the settings a word
    cloud is drawn with, the split of a word-frequency dict into words with and
    without CJK characters, and the file names of the time-series frames.
    Drawing, fonts and masks are outside the model. */
module WordCloudGenerator {
  import opened PyStr
  import opened PyDict
  import opened StableSort
  import Config

  // ---------------------------------------------------------------------------
  // create_wordcloud: the WordCloud keyword arguments
  // ---------------------------------------------------------------------------

  /** The keyword arguments handed to `WordCloud`; `relativeScaling` is 0.5. */
  datatype WordcloudArgs = WordcloudArgs(
    width: int,
    height: int,
    backgroundColor: string,
    maxWords: int,
    maxFontSize: int,
    minFontSize: int,
    colormap: string,
    relativeScaling: real,
    randomState: int,
    collocations: bool)

  /** `WORDCLOUD_CONFIG` as the keyword arguments it yields when nothing is overridden. */
  const Defaults: WordcloudArgs := WordcloudArgs(
    Config.WordcloudWidth, Config.WordcloudHeight, Config.WordcloudBackground,
    Config.WordcloudMaxWords, Config.WordcloudMaxFontSize, Config.WordcloudMinFontSize,
    Config.WordcloudColormap, 0.5, 42, false)

  /** A copy of the defaults with every given option written over its entry. */
  method CreateWordcloudArgs(width: Option<int>, height: Option<int>, backgroundColor: Option<string>,
                             maxWords: Option<int>, colormap: Option<string>)
    returns (config: WordcloudArgs)
    ensures width.Some? ==> config.width == width.value
    ensures width.None? ==> config.width == Defaults.width
    ensures height.Some? ==> config.height == height.value
    ensures height.None? ==> config.height == Defaults.height
    ensures backgroundColor.Some? ==> config.backgroundColor == backgroundColor.value
    ensures backgroundColor.None? ==> config.backgroundColor == Defaults.backgroundColor
    ensures maxWords.Some? ==> config.maxWords == maxWords.value
    ensures maxWords.None? ==> config.maxWords == Defaults.maxWords
    ensures colormap.Some? ==> config.colormap == colormap.value
    ensures colormap.None? ==> config.colormap == Defaults.colormap
    ensures config.maxFontSize == Defaults.maxFontSize && config.minFontSize == Defaults.minFontSize
    ensures config.relativeScaling == 0.5 && config.randomState == 42 && !config.collocations
  {
    config := Defaults;
    if width.Some? {
      config := config.(width := width.value);
    }
    if height.Some? {
      config := config.(height := height.value);
    }
    if backgroundColor.Some? {
      config := config.(backgroundColor := backgroundColor.value);
    }
    if maxWords.Some? {
      config := config.(maxWords := maxWords.value);
    }
    if colormap.Some? {
      config := config.(colormap := colormap.value);
    }
  }

  // ---------------------------------------------------------------------------
  // create_multilingual_wordcloud: CJK words and the others
  // ---------------------------------------------------------------------------

  /** A character of the CJK Unified Ideographs block, U+4E00 to U+9FFF. */
  predicate IsCjk(c: char) {
    '\U{4E00}' <= c <= '\U{9FFF}'
  }

  predicate HasCjk(w: string) {
    exists i :: 0 <= i < |w| && IsCjk(w[i])
  }

  /** The entries of `d` under `keys`, in that order, whose word has CJK
      characters (`cjk`) or has none (`!cjk`). */
  function Side(d: Dict<string, nat>, keys: seq<string>, cjk: bool): (r: Dict<string, nat>)
    requires forall k :: k in keys ==> k in d.vals
    ensures Valid(r)
  {
    if keys == [] then Empty()
    else
      var init, k := keys[..|keys| - 1], keys[|keys| - 1];
      assert forall j :: j in init ==> j in keys;
      var r0 := Side(d, init, cjk);
      if HasCjk(k) == cjk then Put(r0, k, d.vals[k]) else r0
  }

  /** A side holds exactly the words of its kind, each with its frequency. */
  lemma {:induction false} SideContents(d: Dict<string, nat>, keys: seq<string>, cjk: bool)
    requires forall k :: k in keys ==> k in d.vals
    ensures forall w :: w in Side(d, keys, cjk).vals <==> w in keys && HasCjk(w) == cjk
    ensures forall w :: w in Side(d, keys, cjk).vals ==> Side(d, keys, cjk).vals[w] == d.vals[w]
  {
    if keys != [] {
      var init, k := keys[..|keys| - 1], keys[|keys| - 1];
      assert forall j :: j in keys <==> j in init || j == k by {
        assert keys == init + [k];
      }
      SideContents(d, init, cjk);
    }
  }

  /** The loop over `word_freq_dict.items()` that fills `zh_words` and `en_words`. */
  method SplitByScript(wordFreq: Dict<string, nat>) returns (zhWords: Dict<string, nat>, enWords: Dict<string, nat>)
    requires Valid(wordFreq)
    ensures zhWords == Side(wordFreq, wordFreq.keys, true)
    ensures enWords == Side(wordFreq, wordFreq.keys, false)
  {
    zhWords, enWords := Empty(), Empty();
    for i := 0 to |wordFreq.keys|
      invariant zhWords == Side(wordFreq, wordFreq.keys[..i], true)
      invariant enWords == Side(wordFreq, wordFreq.keys[..i], false)
    {
      var word := wordFreq.keys[i];
      assert wordFreq.keys[..i + 1][..i] == wordFreq.keys[..i];
      if HasCjk(word) {
        zhWords := Put(zhWords, word, wordFreq.vals[word]);
      } else {
        enWords := Put(enWords, word, wordFreq.vals[word]);
      }
    }
    assert wordFreq.keys[..|wordFreq.keys|] == wordFreq.keys;
  }

  /** The two sides split the dict: no word on both, every word on the side its
      characters choose, and every frequency as it was. */
  lemma SplitCorrect(wordFreq: Dict<string, nat>)
    requires Valid(wordFreq)
    ensures forall w :: w in Side(wordFreq, wordFreq.keys, true).vals <==> w in wordFreq.vals && HasCjk(w)
    ensures forall w :: w in Side(wordFreq, wordFreq.keys, false).vals <==> w in wordFreq.vals && !HasCjk(w)
    ensures forall w :: w in Side(wordFreq, wordFreq.keys, true).vals ==>
      Side(wordFreq, wordFreq.keys, true).vals[w] == wordFreq.vals[w]
    ensures forall w :: w in Side(wordFreq, wordFreq.keys, false).vals ==>
      Side(wordFreq, wordFreq.keys, false).vals[w] == wordFreq.vals[w]
  {
    SideContents(wordFreq, wordFreq.keys, true);
    SideContents(wordFreq, wordFreq.keys, false);
  }

  /** Put back together, the two sides are the original mapping. */
  lemma SidesJoin(wordFreq: Dict<string, nat>)
    requires Valid(wordFreq)
    ensures Side(wordFreq, wordFreq.keys, true).vals + Side(wordFreq, wordFreq.keys, false).vals == wordFreq.vals
  {
    SplitCorrect(wordFreq);
  }

  /** `create_multilingual_wordcloud` up to the drawing: the dict it draws holds
      the input's entries, CJK words first, and the drawing settings are the defaults. */
  method CreateMultilingualWords(wordFreq: Dict<string, nat>) returns (combinedWords: Dict<string, nat>, config: WordcloudArgs)
    requires Valid(wordFreq)
    ensures Valid(combinedWords)
    ensures combinedWords.vals == wordFreq.vals
    ensures combinedWords.keys == Side(wordFreq, wordFreq.keys, true).keys + Side(wordFreq, wordFreq.keys, false).keys
    ensures config == Defaults
  {
    var zhWords, enWords := SplitByScript(wordFreq);
    SplitCorrect(wordFreq);
    SidesJoin(wordFreq);
    hide Side, Update;
    combinedWords := Empty();
    UpdateIntoEmpty(zhWords);
    combinedWords := Update(combinedWords, zhWords);
    UpdateFresh(combinedWords, enWords);
    combinedWords := Update(combinedWords, enWords);
    config := CreateWordcloudArgs(None, None, None, None, None);
  }

  // ---------------------------------------------------------------------------
  // create_time_wordcloud_animation: one image file per period
  // ---------------------------------------------------------------------------

  /** `f"wordcloud_{i:03d}_{time_key}.png"`. */
  function FrameName(i: nat, timeKey: string): (r: string)
    ensures StartsWith(r, "wordcloud_") && EndsWith(r, ".png")
    ensures !StartsWith(r, "/")
  {
    var r := "wordcloud_" + ZeroPad(i, 3) + "_" + timeKey + ".png";
    assert r[..1] == "w";
    r
  }

  /** Two frames share a name only when they share the position and the period. */
  lemma FrameNameInjective(i: nat, k: string, j: nat, l: string)
    requires FrameName(i, k) == FrameName(j, l)
    ensures i == j && k == l
  {
    hide ZeroPad, FrameName, DigitsValue;
    var zi, zj := ZeroPad(i, 3), ZeroPad(j, 3);
    var ti, tj := "_" + k + ".png", "_" + l + ".png";
    FrameNameParts(i, k);
    FrameNameParts(j, l);
    DigitsThenRest(zi, ti, zj, tj);
    ZeroPadValue(i, 3);
    ZeroPadValue(j, 3);
    assert k == ti[1..|ti| - 4] && l == tj[1..|tj| - 4];
  }

  /** The name after its fixed `wordcloud_` prefix. */
  lemma FrameNameParts(i: nat, k: string)
    ensures FrameName(i, k)[10..] == ZeroPad(i, 3) + ("_" + k + ".png")
  {
    var z, t := ZeroPad(i, 3), "_" + k + ".png";
    assert FrameName(i, k) == "wordcloud_" + (z + t);
  }

  /** The paths saved for the periods of `sorted`, in order; the index counts the
      skipped periods too. */
  function Frames(sorted: seq<string>, freqs: map<string, Dict<string, nat>>, saveDir: string): (r: seq<string>)
    requires forall k :: k in sorted ==> k in freqs
    ensures |r| <= |sorted|
  {
    if sorted == [] then []
    else
      var n := |sorted| - 1;
      assert forall j :: j in sorted[..n] ==> j in sorted;
      Frames(sorted[..n], freqs, saveDir)
        + (if freqs[sorted[n]].keys == [] then [] else [PathJoin(saveDir, FrameName(n, sorted[n]))])
  }

  /** `p` is the path saved for the period at position `i` of `sorted`: that period has words. */
  predicate SavedAt(sorted: seq<string>, freqs: map<string, Dict<string, nat>>, saveDir: string, i: int, p: string) {
    && 0 <= i < |sorted|
    && sorted[i] in freqs
    && freqs[sorted[i]].keys != []
    && p == PathJoin(saveDir, FrameName(i, sorted[i]))
  }

  /** One step of `Frames`: the last period adds its path when it has words. */
  lemma FramesStep(sorted: seq<string>, freqs: map<string, Dict<string, nat>>, saveDir: string)
    requires forall k :: k in sorted ==> k in freqs
    ensures sorted == [] ==> Frames(sorted, freqs, saveDir) == []
    ensures sorted != [] ==>
      var n := |sorted| - 1;
      && (forall j :: j in sorted[..n] ==> j in freqs)
      && Frames(sorted, freqs, saveDir) == Frames(sorted[..n], freqs, saveDir)
           + (if freqs[sorted[n]].keys == [] then [] else [PathJoin(saveDir, FrameName(n, sorted[n]))])
  {
    if sorted != [] {
      var n := |sorted| - 1;
      assert forall j :: j in sorted[..n] ==> j in sorted;
    }
  }

  /** A path saved for the periods before the last one is saved at the same
      position for all of them; the last position may add one more. */
  lemma SavedAtPrefix(sorted: seq<string>, init: seq<string>, freqs: map<string, Dict<string, nat>>, saveDir: string, q: string)
    requires sorted != [] && init == sorted[..|sorted| - 1]
    ensures forall i :: SavedAt(init, freqs, saveDir, i, q) <==> 0 <= i < |init| && SavedAt(sorted, freqs, saveDir, i, q)
    ensures forall i :: SavedAt(sorted, freqs, saveDir, i, q) ==> 0 <= i <= |init|
  {
    hide PathJoin, FrameName;
    forall i ensures SavedAt(init, freqs, saveDir, i, q) <==> 0 <= i < |init| && SavedAt(sorted, freqs, saveDir, i, q) {
      if 0 <= i < |init| {
        assert init[i] == sorted[i];
      }
    }
  }

  /** The membership fact for one path, carried from the periods before the
      last one to all of them. */
  lemma FramesMemberStep(sorted: seq<string>, init: seq<string>, freqs: map<string, Dict<string, nat>>, saveDir: string, q: string)
    requires sorted != [] && init == sorted[..|sorted| - 1]
    requires forall k :: k in sorted ==> k in freqs
    requires forall k :: k in init ==> k in freqs
    requires q in Frames(init, freqs, saveDir) <==> exists i :: SavedAt(init, freqs, saveDir, i, q)
    ensures q in Frames(sorted, freqs, saveDir) <==> exists i :: SavedAt(sorted, freqs, saveDir, i, q)
  {
    FramesStep(sorted, freqs, saveDir);
    SavedAtPrefix(sorted, init, freqs, saveDir, q);
    var n := |sorted| - 1;
    var extra := if freqs[sorted[n]].keys == [] then [] else [PathJoin(saveDir, FrameName(n, sorted[n]))];
    assert SavedAt(sorted, freqs, saveDir, n, q) <==> q in extra;
    hide Frames, PathJoin, FrameName, SavedAt;
    assert q in Frames(sorted, freqs, saveDir) <==> q in Frames(init, freqs, saveDir) || q in extra;
  }

  /** Every period with words gets a path, named by its position, and there
      are no other paths. */
  lemma {:induction false} FramesMembers(sorted: seq<string>, freqs: map<string, Dict<string, nat>>, saveDir: string)
    requires forall k :: k in sorted ==> k in freqs
    ensures forall p :: p in Frames(sorted, freqs, saveDir) <==> exists i :: SavedAt(sorted, freqs, saveDir, i, p)
  {
    FramesStep(sorted, freqs, saveDir);
    if sorted != [] {
      var init := sorted[..|sorted| - 1];
      FramesMembers(init, freqs, saveDir);
      forall q ensures q in Frames(sorted, freqs, saveDir) <==> exists i :: SavedAt(sorted, freqs, saveDir, i, q) {
        FramesMemberStep(sorted, init, freqs, saveDir, q);
      }
    } else {
      assert forall i, q :: !SavedAt(sorted, freqs, saveDir, i, q);
    }
  }

  /** No two periods share a path, so no frame overwrites another. */
  lemma {:induction false} FramesDistinct(sorted: seq<string>, freqs: map<string, Dict<string, nat>>, saveDir: string)
    requires forall k :: k in sorted ==> k in freqs
    ensures Distinct(Frames(sorted, freqs, saveDir))
  {
    FramesStep(sorted, freqs, saveDir);
    hide Frames, PathJoin, FrameName;
    if sorted != [] {
      var n := |sorted| - 1;
      var init := sorted[..n];
      FramesDistinct(init, freqs, saveDir);
      FramesMembers(init, freqs, saveDir);
      var r0 := Frames(init, freqs, saveDir);
      var p := PathJoin(saveDir, FrameName(n, sorted[n]));
      if freqs[sorted[n]].keys != [] {
        assert p !in r0 by {
          if p in r0 {
            var i :| SavedAt(init, freqs, saveDir, i, p);
            PathJoinInjective(saveDir, FrameName(n, sorted[n]), FrameName(i, init[i]));
            FrameNameInjective(n, sorted[n], i, init[i]);
          }
        }
        DistinctSnoc(r0, p);
      }
    }
  }

  /** `sorted(time_word_freq_dict.keys())`: the periods in ascending order, each once. */
  function SortedTimes(timeWordFreq: Dict<string, Dict<string, nat>>): (r: seq<string>)
    requires Valid(timeWordFreq)
    ensures |r| == |timeWordFreq.keys|
    ensures forall k :: k in r <==> k in timeWordFreq.vals
    ensures StrictlySorted(r)
  {
    var r := SortStrings(timeWordFreq.keys);
    SortStringsCorrect(timeWordFreq.keys);
    assert |r| == |timeWordFreq.keys| by {
      assert |multiset(r)| == |multiset(timeWordFreq.keys)|;
    }
    assert forall k :: k in r <==> k in timeWordFreq.vals by {
      forall k ensures k in r <==> k in timeWordFreq.vals {
        assert k in r <==> k in multiset(r);
        assert k in timeWordFreq.keys <==> k in multiset(timeWordFreq.keys);
      }
    }
    r
  }

  /** The loop over `sorted(time_word_freq_dict.keys())`, with the path of each saved frame. */
  method CreateTimeWordcloudAnimation(timeWordFreq: Dict<string, Dict<string, nat>>, saveDir: string)
    returns (savePaths: seq<string>)
    requires Valid(timeWordFreq)
    ensures savePaths == Frames(SortedTimes(timeWordFreq), timeWordFreq.vals, saveDir)
  {
    var sortedTimes := SortedTimes(timeWordFreq);
    savePaths := [];
    FramesStep(sortedTimes[..0], timeWordFreq.vals, saveDir);
    hide Frames, PathJoin;
    for i := 0 to |sortedTimes|
      invariant forall k :: k in sortedTimes[..i] ==> k in timeWordFreq.vals
      invariant savePaths == Frames(sortedTimes[..i], timeWordFreq.vals, saveDir)
    {
      var timeKey := sortedTimes[i];
      assert sortedTimes[..i + 1][..i] == sortedTimes[..i];
      assert forall k :: k in sortedTimes[..i + 1] ==> k in sortedTimes;
      FramesStep(sortedTimes[..i + 1], timeWordFreq.vals, saveDir);
      var wordFreq := timeWordFreq.vals[timeKey];
      if wordFreq.keys == [] {
        continue;
      }
      var filename := "wordcloud_" + ZeroPad(i, 3) + "_" + timeKey + ".png";
      assert filename == FrameName(i, timeKey);
      var savePath := PathJoin(saveDir, filename);
      savePaths := savePaths + [savePath];
    }
    assert sortedTimes[..|sortedTimes|] == sortedTimes;
  }

  /** One distinct path for each period that has words, named by the period's
      place in ascending order. */
  lemma AnimationPlanCorrect(timeWordFreq: Dict<string, Dict<string, nat>>, saveDir: string)
    requires Valid(timeWordFreq)
    ensures forall p :: p in Frames(SortedTimes(timeWordFreq), timeWordFreq.vals, saveDir) <==>
      exists i :: SavedAt(SortedTimes(timeWordFreq), timeWordFreq.vals, saveDir, i, p)
    ensures Distinct(Frames(SortedTimes(timeWordFreq), timeWordFreq.vals, saveDir))
  {
    FramesMembers(SortedTimes(timeWordFreq), timeWordFreq.vals, saveDir);
    FramesDistinct(SortedTimes(timeWordFreq), timeWordFreq.vals, saveDir);
  }
}
