/** The title automatic organisation gives a cluster of bookmarks
    (`autoOrganizeBookmarks` in `src/utils/auto-organize.ts`): the two most
    frequent longer words of the lower-cased titles, capitalised, joined with
    " & " and followed by " Collection". */
module ClusterTitles {
  import opened Text
  import opened Sorting
  import opened BookmarkTypes

  const Suffix := " Collection"
  const Separator := " & "

  /** Words must be longer than this to count. */
  const MinLength: nat := 3

  /** How many words the title names at most. */
  const TopCount: nat := 2

  // ----- the words -----

  /** `bookmarks.flatMap(b => b.title.toLowerCase().split(/\W+/))`, without the
      empty pieces, which the length filter drops anyway. */
  function TitlePieces(bs: seq<Bookmark>): seq<string> {
    if bs == [] then [] else Words(ToLower(bs[0].title)) + TitlePieces(bs[1..])
  }

  /** `.filter(word => word.length > 3)`, in order. */
  function LongWords(ws: seq<string>): (r: seq<string>)
    ensures forall i :: 0 <= i < |r| ==> |r[i]| > MinLength
    ensures forall w :: w in r <==> w in ws && |w| > MinLength
    ensures forall w :: |w| > MinLength ==> multiset(r)[w] == multiset(ws)[w]
  {
    if ws == [] then []
    else
      assert ws == [ws[0]] + ws[1..];
      (if |ws[0]| > MinLength then [ws[0]] else []) + LongWords(ws[1..])
  }

  function TitleWords(bs: seq<Bookmark>): seq<string> {
    LongWords(TitlePieces(bs))
  }

  // ----- the tally -----

  /** One own property of the counting object: a word and its count. */
  datatype WordCount = WordCount(word: string, count: nat)

  function Keys(t: seq<WordCount>): (r: seq<string>)
    ensures |r| == |t| && forall i :: 0 <= i < |t| ==> r[i] == t[i].word
  {
    seq(|t|, i requires 0 <= i < |t| => t[i].word)
  }

  /** `t` counts the words of `ws`: one entry per distinct word, holding the
      number of its occurrences. */
  ghost predicate Tallies(t: seq<WordCount>, ws: seq<string>) {
    Distinct(t)
    && (forall i :: 0 <= i < |t| ==> t[i].count == multiset(ws)[t[i].word])
    && (forall w :: w in ws <==> w in Keys(t))
  }

  ghost predicate Distinct(t: seq<WordCount>) {
    forall i, j :: 0 <= i < j < |t| ==> t[i].word != t[j].word
  }

  /** `acc[word] = (acc[word] || 0) + 1`: an existing key keeps its place and
      counts one more; a new key is added last with count 1. */
  function Bump(t: seq<WordCount>, w: string): (r: seq<WordCount>)
    requires Distinct(t)
    ensures w in Keys(t) ==> |r| == |t|
    ensures w !in Keys(t) ==> |r| == |t| + 1 && r[|t|] == WordCount(w, 1)
    ensures forall i :: 0 <= i < |t| ==>
      r[i].word == t[i].word && r[i].count == t[i].count + (if t[i].word == w then 1 else 0)
  {
    if t == [] then [WordCount(w, 1)]
    else if t[0].word == w then [WordCount(w, t[0].count + 1)] + t[1..]
    else
      assert Keys(t) == [t[0].word] + Keys(t[1..]);
      [t[0]] + Bump(t[1..], w)
  }

  lemma BumpDistinct(t: seq<WordCount>, w: string)
    requires Distinct(t)
    ensures Distinct(Bump(t, w))
  {
    var r := Bump(t, w);
    forall i, j | 0 <= i < j < |r|
      ensures r[i].word != r[j].word
    {
      if j >= |t| {
        assert Keys(t)[i] == r[i].word;
      }
    }
  }

  lemma BumpCounts(t: seq<WordCount>, ws: seq<string>, w: string)
    requires Tallies(t, ws)
    ensures forall i :: 0 <= i < |Bump(t, w)| ==> Bump(t, w)[i].count == multiset(ws + [w])[Bump(t, w)[i].word]
  {
    var r := Bump(t, w);
    assert multiset(ws + [w]) == multiset(ws) + multiset{w};
    forall i | 0 <= i < |r|
      ensures r[i].count == multiset(ws + [w])[r[i].word]
    {
      if i >= |t| {
        assert w !in ws;
      }
    }
  }

  lemma BumpKeys(t: seq<WordCount>, ws: seq<string>, w: string)
    requires Distinct(t)
    requires forall v :: v in ws <==> v in Keys(t)
    ensures forall v :: v in ws + [w] <==> v in Keys(Bump(t, w))
  {
    var r := Bump(t, w);
    forall v
      ensures v in ws + [w] <==> v in Keys(r)
    {
      if v in Keys(t) {
        var i :| 0 <= i < |t| && t[i].word == v;
        assert Keys(r)[i] == v;
      }
      if v in Keys(r) {
        var i :| 0 <= i < |r| && r[i].word == v;
        if i < |t| {
          assert Keys(t)[i] == v;
        }
      }
    }
  }

  lemma BumpTallies(t: seq<WordCount>, ws: seq<string>, w: string)
    requires Tallies(t, ws)
    ensures Tallies(Bump(t, w), ws + [w])
  {
    BumpDistinct(t, w);
    BumpCounts(t, ws, w);
    BumpKeys(t, ws, w);
  }

  /** Counting the last word of `ws` completes a tally of the others. */
  lemma BumpLast(t: seq<WordCount>, ws: seq<string>)
    requires ws != [] && Tallies(t, ws[..|ws| - 1])
    ensures Tallies(Bump(t, ws[|ws| - 1]), ws)
  {
    var n := |ws| - 1;
    BumpTallies(t, ws[..n], ws[n]);
    assert ws[..n] + [ws[n]] == ws;
  }

  /** The counting `reduce`: a left fold of `Bump`. */
  function Tally(ws: seq<string>): (r: seq<WordCount>)
    ensures Tallies(r, ws)
  {
    if ws == [] then []
    else
      var t := Tally(ws[..|ws| - 1]);
      BumpLast(t, ws);
      Bump(t, ws[|ws| - 1])
  }

  // ----- the order of Object.entries -----

  predicate IsDigit(c: char) { '0' <= c <= '9' }

  function DecimalValue(w: string): nat
    requires forall i :: 0 <= i < |w| ==> IsDigit(w[i])
  {
    if w == [] then 0
    else
      assert IsDigit(w[|w| - 1]);
      DecimalValue(w[..|w| - 1]) * 10 + (w[|w| - 1] as int - '0' as int)
  }

  /** A canonical array index: decimal digits without a leading zero, at most
      2^32 - 2. Such keys of an object are listed first, in numeric order. */
  predicate IsArrayIndex(w: string) {
    |w| > 0
    && (forall i :: 0 <= i < |w| ==> IsDigit(w[i]))
    && (|w| == 1 || w[0] != '0')
    && DecimalValue(w) <= 0xFFFF_FFFE
  }

  /** The entries with array-index keys, in order. */
  function IndexKeyed(t: seq<WordCount>): (r: seq<WordCount>)
    ensures forall i :: 0 <= i < |r| ==> IsArrayIndex(r[i].word)
  {
    if t == [] then []
    else (if IsArrayIndex(t[0].word) then [t[0]] else []) + IndexKeyed(t[1..])
  }

  /** The other entries, in order. */
  function NameKeyed(t: seq<WordCount>): (r: seq<WordCount>)
    ensures forall i :: 0 <= i < |r| ==> !IsArrayIndex(r[i].word)
  {
    if t == [] then []
    else (if IsArrayIndex(t[0].word) then [] else [t[0]]) + NameKeyed(t[1..])
  }

  /** Every entry goes to exactly one of the two lists. */
  lemma {:induction false} KeyedSplit(t: seq<WordCount>)
    ensures multiset(IndexKeyed(t)) + multiset(NameKeyed(t)) == multiset(t)
  {
    if t != [] {
      KeyedSplit(t[1..]);
      assert t == [t[0]] + t[1..];
    }
  }

  function IndexValue(e: WordCount): real {
    if IsArrayIndex(e.word) then DecimalValue(e.word) as real else 0.0
  }

  /** `Object.entries(words)`: array-index keys in ascending numeric order,
      then the other keys in insertion order. */
  function Entries(t: seq<WordCount>): (r: seq<WordCount>)
    ensures multiset(r) == multiset(t)
  {
    KeyedSplit(t);
    SortBy(IndexKeyed(t), IndexValue) + NameKeyed(t)
  }

  // ----- the title -----

  function Descending(e: WordCount): real {
    -(e.count as real)
  }

  /** `.sort(([, a], [, b]) => b - a)` on the tally of `ws`: by count,
      highest first, stable. */
  function Ranked(ws: seq<string>): (r: seq<WordCount>)
    ensures SortedBy(r, Descending)
    ensures multiset(r) == multiset(Tally(ws))
  {
    SortBy(Entries(Tally(ws)), Descending)
  }

  /** `.slice(0, 2)` */
  function Top(ws: seq<string>): (r: seq<WordCount>)
    ensures |r| <= TopCount && |r| <= |Ranked(ws)|
    ensures forall i :: 0 <= i < |r| ==> r[i] == Ranked(ws)[i]
  {
    var ranked := Ranked(ws);
    if |ranked| <= TopCount then ranked else ranked[..TopCount]
  }

  function CapitalizeAll(top: seq<WordCount>): (r: seq<string>)
    requires forall i :: 0 <= i < |top| ==> |top[i].word| > 0
    ensures |r| == |top| && forall i :: 0 <= i < |r| ==> |r[i]| == |top[i].word|
  {
    seq(|top|, i requires 0 <= i < |top| => Capitalize(top[i].word))
  }

  /** An element of one of two sequences holding the same multiset sits at
      some position of the other. */
  lemma SameMultisetIndex<T>(a: seq<T>, b: seq<T>, i: nat) returns (j: nat)
    requires multiset(a) == multiset(b) && i < |a|
    ensures j < |b| && b[j] == a[i]
  {
    assert a[i] in multiset(b);
    j :| 0 <= j < |b| && b[j] == a[i];
  }

  /** The ranked entries are the tally's: one per distinct word, each with
      its number of occurrences. */
  lemma RankedCounts(ws: seq<string>)
    ensures |Ranked(ws)| == |Tally(ws)|
    ensures forall i :: 0 <= i < |Ranked(ws)| ==>
      Ranked(ws)[i].word in ws && Ranked(ws)[i].count == multiset(ws)[Ranked(ws)[i].word]
    ensures forall w :: w in ws ==> exists i :: 0 <= i < |Ranked(ws)| && Ranked(ws)[i].word == w
  {
    var t := Tally(ws);
    var ranked := Ranked(ws);
    assert |ranked| == |t| by {
      assert |multiset(ranked)| == |multiset(t)|;
    }
    forall i | 0 <= i < |ranked|
      ensures ranked[i].word in ws && ranked[i].count == multiset(ws)[ranked[i].word]
    {
      var j := SameMultisetIndex(ranked, t, i);
      assert Keys(t)[j] == t[j].word;
    }
    forall w | w in ws
      ensures exists i :: 0 <= i < |ranked| && ranked[i].word == w
    {
      assert w in Keys(t);
      var j :| 0 <= j < |t| && t[j].word == w;
      var i := SameMultisetIndex(t, ranked, j);
    }
  }

  /** `${topWords.join(" & ")} Collection` for the words `ws`, all non-empty. */
  function TitleOf(ws: seq<string>): (r: string)
    requires forall i :: 0 <= i < |ws| ==> |ws[i]| > 0
  {
    RankedCounts(ws);
    Join(CapitalizeAll(Top(ws)), Separator) + Suffix
  }

  /** The title of a cluster. */
  function Title(bs: seq<Bookmark>): string {
    TitleOf(TitleWords(bs))
  }

  /** With at least one word, the title names one before the suffix. */
  lemma TitleOfSome(ws: seq<string>)
    requires forall i :: 0 <= i < |ws| ==> |ws[i]| > 0
    requires ws != []
    ensures |TitleOf(ws)| > |Suffix|
  {
    var top := Top(ws);
    assert |top| > 0 && forall i :: 0 <= i < |top| ==> |top[i].word| > 0 by {
      RankedCounts(ws);
      assert ws[0] in ws;
    }
    var words := CapitalizeAll(top);
    assert |words[0]| > 0;
    var joined := Join(words, Separator);
    assert |joined| > 0;
    assert TitleOf(ws) == joined + Suffix;
  }

  /** The title spelled out: the one or two most frequent words, capitalised,
      joined by " & ", then " Collection". */
  lemma TitleOfTop(ws: seq<string>)
    requires forall i :: 0 <= i < |ws| ==> |ws[i]| > 0
    ensures var top := Top(ws);
      |top| == 1 ==> |top[0].word| > 0 && TitleOf(ws) == Capitalize(top[0].word) + " Collection"
    ensures var top := Top(ws);
      |top| == 2 ==>
        |top[0].word| > 0 && |top[1].word| > 0
        && TitleOf(ws) == Capitalize(top[0].word) + " & " + Capitalize(top[1].word) + " Collection"
  {
    var top := Top(ws);
    assert forall i :: 0 <= i < |top| ==> |top[i].word| > 0 by {
      RankedCounts(ws);
    }
    var words := CapitalizeAll(top);
    assert TitleOf(ws) == Join(words, Separator) + Suffix;
  }

  /** The title is the bare suffix exactly when there is no word. */
  lemma TitleBareIff(ws: seq<string>)
    requires forall i :: 0 <= i < |ws| ==> |ws[i]| > 0
    ensures TitleOf(ws) == Suffix <==> ws == []
  {
    if ws != [] {
      TitleOfSome(ws);
    } else {
      assert Tally(ws) == [];
      assert Top(ws) == [];
      assert TitleOf(ws) == [] + Suffix;
    }
  }

  /** A cluster is titled " Collection" exactly when no title in it has a
      word longer than three characters. */
  lemma ClusterTitleBareIff(bs: seq<Bookmark>)
    ensures Title(bs) == Suffix <==> TitleWords(bs) == []
  {
    TitleBareIff(TitleWords(bs));
  }

  /** The first word named is a most frequent word, with its true count; the
      second, if any, is at least as frequent as every word but the first. */
  lemma TopWordsMostFrequent(ws: seq<string>)
    ensures |Top(ws)| == if |Tally(ws)| < TopCount then |Tally(ws)| else TopCount
    ensures forall i :: 0 <= i < |Top(ws)| ==>
      Top(ws)[i].word in ws && Top(ws)[i].count == multiset(ws)[Top(ws)[i].word]
    ensures |Top(ws)| > 0 ==> forall w :: w in ws ==> multiset(ws)[w] <= Top(ws)[0].count
    ensures |Top(ws)| > 1 ==> forall w :: w in ws && w != Top(ws)[0].word ==>
      multiset(ws)[w] <= Top(ws)[1].count
  {
    var ranked := Ranked(ws);
    var top := Top(ws);
    RankedCounts(ws);
    assert forall i :: 0 <= i < |top| ==> top[i] == ranked[i];
    if |top| > 0 {
      forall w | w in ws
        ensures multiset(ws)[w] <= top[0].count
      {
        var i :| 0 <= i < |ranked| && ranked[i].word == w;
        if i > 0 {
          assert Descending(ranked[0]) <= Descending(ranked[i]);
        }
      }
    }
    if |top| > 1 {
      forall w | w in ws && w != top[0].word
        ensures multiset(ws)[w] <= top[1].count
      {
        var i :| 0 <= i < |ranked| && ranked[i].word == w;
        assert i != 0;
        if i > 1 {
          assert Descending(ranked[1]) <= Descending(ranked[i]);
        }
      }
    }
  }
}
