/** The string operations the core applies to titles and URLs: ASCII case
    mapping, the word split of the regular expression `/\W+/`, and joining. */
module Text {

  predicate IsUpper(c: char) { 'A' <= c <= 'Z' }

  predicate IsLower(c: char) { 'a' <= c <= 'z' }

  /** The JavaScript `\w` class (without the `u` flag): letters, digits, `_`. */
  predicate IsWordChar(c: char) {
    IsUpper(c) || IsLower(c) || '0' <= c <= '9' || c == '_'
  }

  function LowerChar(c: char): (r: char)
    ensures !IsUpper(r)
    ensures IsWordChar(r) <==> IsWordChar(c)
    ensures !IsUpper(c) ==> r == c
  {
    if IsUpper(c) then (c as int + 32) as char else c
  }

  function UpperChar(c: char): (r: char)
    ensures !IsLower(r)
    ensures IsWordChar(r) <==> IsWordChar(c)
    ensures !IsLower(c) ==> r == c
  {
    if IsLower(c) then (c as int - 32) as char else c
  }

  /** `String.prototype.toLowerCase`, restricted to the ASCII letters. */
  function ToLower(s: string): (r: string)
    ensures |r| == |s|
    ensures forall i :: 0 <= i < |s| ==> r[i] == LowerChar(s[i])
  {
    if s == [] then [] else [LowerChar(s[0])] + ToLower(s[1..])
  }

  lemma {:induction false} ToLowerIdempotent(s: string)
    ensures ToLower(ToLower(s)) == ToLower(s)
  {
    var once := ToLower(s);
    var twice := ToLower(once);
    forall i | 0 <= i < |s| ensures twice[i] == once[i] {
      assert once[i] == LowerChar(s[i]);
    }
  }

  lemma {:induction false} ToLowerConcat(a: string, b: string)
    ensures ToLower(a + b) == ToLower(a) + ToLower(b)
  {
    var l := ToLower(a + b);
    var r := ToLower(a) + ToLower(b);
    forall i | 0 <= i < |a + b| ensures l[i] == r[i] {
      if i < |a| {
        assert (a + b)[i] == a[i];
      } else {
        assert (a + b)[i] == b[i - |a|];
      }
    }
  }

  ghost predicate IsWord(w: string) {
    |w| > 0 && forall i :: 0 <= i < |w| ==> IsWordChar(w[i])
  }

  /** Splits `s` on runs of non-word characters, continuing a word `cur`
      already collected. The empty pieces that `split(/\W+/)` returns at a
      leading or trailing separator are not produced. */
  function WordsFrom(s: string, cur: string): (r: seq<string>)
    requires forall i :: 0 <= i < |cur| ==> IsWordChar(cur[i])
    ensures forall k :: 0 <= k < |r| ==> IsWord(r[k])
    decreases |s|
  {
    if s == [] then
      (if cur == [] then [] else [cur])
    else if IsWordChar(s[0]) then
      WordsFrom(s[1..], cur + [s[0]])
    else
      (if cur == [] then [] else [cur]) + WordsFrom(s[1..], [])
  }

  /** The non-empty pieces of `s.split(/\W+/)`. */
  function Words(s: string): (r: seq<string>)
    ensures forall k :: 0 <= k < |r| ==> IsWord(r[k])
  {
    WordsFrom(s, [])
  }

  lemma {:induction false} WordsFromWord(w: string, cur: string)
    requires forall i :: 0 <= i < |cur| ==> IsWordChar(cur[i])
    requires forall i :: 0 <= i < |w| ==> IsWordChar(w[i])
    requires |cur + w| > 0
    ensures WordsFrom(w, cur) == [cur + w]
    decreases |w|
  {
    if w == [] {
      assert cur + w == cur;
    } else {
      assert cur + w == (cur + [w[0]]) + w[1..];
      WordsFromWord(w[1..], cur + [w[0]]);
    }
  }

  /** A word on its own is split into itself. */
  lemma WordsOfWord(w: string)
    requires IsWord(w)
    ensures Words(w) == [w]
  {
    WordsFromWord(w, []);
    assert [] + w == w;
  }

  lemma {:induction false} WordsFromSeparated(a: string, cur: string, sep: char, b: string)
    requires forall i :: 0 <= i < |cur| ==> IsWordChar(cur[i])
    requires !IsWordChar(sep)
    ensures WordsFrom(a + [sep] + b, cur) == WordsFrom(a, cur) + Words(b)
    decreases |a|
  {
    if a == [] {
      assert a + [sep] + b == [sep] + b;
      assert ([sep] + b)[1..] == b;
    } else {
      assert (a + [sep] + b)[0] == a[0];
      assert (a + [sep] + b)[1..] == a[1..] + [sep] + b;
      if IsWordChar(a[0]) {
        WordsFromSeparated(a[1..], cur + [a[0]], sep, b);
      } else {
        WordsFromSeparated(a[1..], [], sep, b);
      }
    }
  }

  /** A separator character splits the word list in two. */
  lemma WordsSeparated(a: string, sep: char, b: string)
    requires !IsWordChar(sep)
    ensures Words(a + [sep] + b) == Words(a) + Words(b)
  {
    WordsFromSeparated(a, [], sep, b);
  }

  /** `Array.prototype.join(sep)`. */
  function Join(ws: seq<string>, sep: string): (r: string)
    ensures ws == [] ==> r == []
    ensures |ws| == 1 ==> r == ws[0]
    ensures |ws| > 0 ==> |r| >= |ws[0]|
    ensures |ws| == 2 ==> r == ws[0] + sep + ws[1]
  {
    if ws == [] then []
    else if |ws| == 1 then ws[0]
    else ws[0] + sep + Join(ws[1..], sep)
  }

  /** Joining one more word appends the separator and the word. */
  lemma {:induction false} JoinSnoc(ws: seq<string>, w: string, sep: string)
    requires ws != []
    ensures Join(ws + [w], sep) == Join(ws, sep) + sep + w
  {
    if |ws| == 1 {
      assert (ws + [w])[1..] == [w];
    } else {
      assert (ws + [w])[1..] == ws[1..] + [w];
      JoinSnoc(ws[1..], w, sep);
    }
  }

  /** `w[0].toUpperCase() + w.slice(1)` for a non-empty `w`. */
  function Capitalize(w: string): (r: string)
    requires |w| > 0
    ensures |r| == |w| && r[1..] == w[1..]
    ensures r[0] == UpperChar(w[0])
  {
    [UpperChar(w[0])] + w[1..]
  }
}
