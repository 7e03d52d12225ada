/** The string helpers that turn document and query text into tokens:
    `remove_non_alpha` and the per-line query transformation of
    assignment/utils.py, and `remove_chars`, `filter_stop_words` and
    `simple_tokenizer` of assignment1/assignment.py. Letters are the ASCII
    letters; `str.split()` with no argument splits on runs of Python
    whitespace and drops empty pieces. */
module Tokenizer {

  /** `c.isalpha()` restricted to ASCII. */
  predicate IsAlpha(c: char) {
    'a' <= c <= 'z' || 'A' <= c <= 'Z'
  }

  predicate IsLowerAlpha(c: char) {
    'a' <= c <= 'z'
  }

  /** The characters `str.split()` treats as whitespace. */
  predicate IsSpace(c: char) {
    || c == ' ' || '\t' <= c <= '\r' || '\U{1c}' <= c <= '\U{1f}'
    || c == '\U{85}' || c == '\U{a0}' || c == '\U{1680}'
    || '\U{2000}' <= c <= '\U{200a}' || c == '\U{2028}' || c == '\U{2029}'
    || c == '\U{202f}' || c == '\U{205f}' || c == '\U{3000}'
  }

  /** `c.lower()` on ASCII. */
  function LowerChar(c: char): (r: char)
    ensures IsAlpha(c) ==> IsLowerAlpha(r)
    ensures !IsAlpha(c) ==> r == c
  {
    if 'A' <= c <= 'Z' then (c as int - 'A' as int + 'a' as int) as char else c
  }

  /** `s.lower()`. */
  function Lower(s: string): (r: string)
    ensures |r| == |s|
    ensures forall i :: 0 <= i < |s| ==> r[i] == LowerChar(s[i])
  {
    if s == [] then [] else [LowerChar(s[0])] + Lower(s[1..])
  }

  /** `remove_chars`: every character that is not a letter becomes a space. */
  function RemoveChars(s: string): (r: string)
    ensures |r| == |s|
    ensures forall i :: 0 <= i < |s| ==> (IsAlpha(s[i]) ==> r[i] == s[i]) && (!IsAlpha(s[i]) ==> r[i] == ' ')
  {
    if s == [] then [] else [if IsAlpha(s[0]) then s[0] else ' '] + RemoveChars(s[1..])
  }

  /** Length of the leading run of non-whitespace characters. */
  function WordLength(s: string): (n: nat)
    ensures n <= |s|
    ensures forall i :: 0 <= i < n ==> !IsSpace(s[i])
    ensures n < |s| ==> IsSpace(s[n])
  {
    if s == [] || IsSpace(s[0]) then 0 else 1 + WordLength(s[1..])
  }

  /** A word as `split()` returns it: non-empty, without whitespace. */
  predicate IsWord(w: string) {
    |w| > 0 && forall i :: 0 <= i < |w| ==> !IsSpace(w[i])
  }

  /** `s.split()`. */
  function Split(s: string): (ws: seq<string>)
    ensures forall k :: 0 <= k < |ws| ==> IsWord(ws[k])
    ensures forall k, j :: 0 <= k < |ws| && 0 <= j < |ws[k]| ==> ws[k][j] in s
    decreases |s|
  {
    if s == [] then []
    else if IsSpace(s[0]) then Split(s[1..])
    else
      var n := WordLength(s);
      var rest := Split(s[n..]);
      assert forall k, j :: 0 <= k < |rest| && 0 <= j < |rest[k]| ==> rest[k][j] in s by {
        forall k, j | 0 <= k < |rest| && 0 <= j < |rest[k]| ensures rest[k][j] in s {
          var c := rest[k][j];
          var i :| 0 <= i < |s[n..]| && s[n..][i] == c;
          assert s[n + i] == c;
        }
      }
      [s[..n]] + rest
  }

  /** `' '.join(ws)`. */
  function Join(ws: seq<string>): (s: string)
    ensures forall k :: 0 <= k < |ws| ==> |ws[k]| <= |s|
  {
    if ws == [] then ""
    else if |ws| == 1 then ws[0]
    else ws[0] + " " + Join(ws[1..])
  }

  /** Concatenation of a list of strings. */
  function Concat(ws: seq<string>): string {
    if ws == [] then "" else ws[0] + Concat(ws[1..])
  }

  /** The characters of `s` satisfying `keep`, in order. */
  function Select(s: string, keep: char -> bool): (r: string)
    ensures |r| <= |s|
    ensures forall i :: 0 <= i < |r| ==> keep(r[i])
  {
    if s == [] then [] else (if keep(s[0]) then [s[0]] else []) + Select(s[1..], keep)
  }

  function NonSpace(s: string): string {
    Select(s, c => !IsSpace(c))
  }

  lemma {:induction false} SelectAppend(a: string, b: string, keep: char -> bool)
    ensures Select(a + b, keep) == Select(a, keep) + Select(b, keep)
    decreases |a|
  {
    if a != [] {
      var h := if keep(a[0]) then [a[0]] else [];
      assert (a + b)[0] == a[0];
      assert (a + b)[1..] == a[1..] + b;
      assert Select(a + b, keep) == h + Select(a[1..] + b, keep);
      SelectAppend(a[1..], b, keep);
      assert h + (Select(a[1..], keep) + Select(b, keep)) == (h + Select(a[1..], keep)) + Select(b, keep);
    } else {
      assert a + b == b;
    }
  }

  /** Splitting loses exactly the whitespace: the words, glued together,
      are the non-whitespace characters of the input in order. */
  lemma {:induction false} SplitConcat(s: string)
    ensures Concat(Split(s)) == NonSpace(s)
    decreases |s|
  {
    if s != [] {
      if IsSpace(s[0]) {
        SplitConcat(s[1..]);
      } else {
        var n := WordLength(s);
        SplitConcat(s[n..]);
        assert s == s[..n] + s[n..];
        SelectAppend(s[..n], s[n..], c => !IsSpace(c));
        AllKept(s[..n], c => !IsSpace(c));
        var ws := Split(s);
        assert ws[1..] == Split(s[n..]);
      }
    }
  }

  lemma {:induction false} AllKept(s: string, keep: char -> bool)
    requires forall i :: 0 <= i < |s| ==> keep(s[i])
    ensures Select(s, keep) == s
    decreases |s|
  {
    if s != [] {
      AllKept(s[1..], keep);
    }
  }

  lemma {:induction false} NoneKept(s: string, keep: char -> bool)
    requires forall i :: 0 <= i < |s| ==> !keep(s[i])
    ensures Select(s, keep) == []
    decreases |s|
  {
    if s != [] {
      NoneKept(s[1..], keep);
    }
  }

  /** Splitting a space-joined list of words gives the words back. */
  lemma {:induction false} SplitJoin(ws: seq<string>)
    requires forall k :: 0 <= k < |ws| ==> IsWord(ws[k])
    ensures Split(Join(ws)) == ws
    decreases |ws|
  {
    if ws != [] {
      var w := ws[0];
      if |ws| == 1 {
        SplitWord(w, "");
        assert w + "" == w;
      } else {
        var j := Join(ws[1..]);
        assert Join(ws) == w + (" " + j);
        SplitJoin(ws[1..]);
        SplitWord(w, " " + j);
        assert (" " + j)[1..] == j;
        assert Split(" " + j) == Split(j);
        assert ws == [w] + ws[1..];
      }
    }
  }

  /** A word followed by nothing or by whitespace splits off as one piece. */
  lemma {:induction false} SplitWord(w: string, rest: string)
    requires IsWord(w)
    requires rest == [] || IsSpace(rest[0])
    ensures Split(w + rest) == [w] + Split(rest)
  {
    var s := w + rest;
    WordLengthOf(w, rest);
    assert s[..|w|] == w && s[|w|..] == rest;
  }

  lemma {:induction false} WordLengthOf(w: string, rest: string)
    requires forall i :: 0 <= i < |w| ==> !IsSpace(w[i])
    requires rest == [] || IsSpace(rest[0])
    ensures WordLength(w + rest) == |w|
    decreases |w|
  {
    if w != [] {
      assert (w + rest)[1..] == w[1..] + rest;
      WordLengthOf(w[1..], rest);
    }
  }

  /** `remove_non_alpha` (assignment/utils.py). */
  function RemoveNonAlpha(s: string): (ws: seq<string>)
    ensures forall k :: 0 <= k < |ws| ==> IsToken(ws[k])
  {
    var m := RemoveChars(Lower(s));
    var ws := Split(m);
    assert forall k, j :: 0 <= k < |ws| && 0 <= j < |ws[k]| ==> IsLowerAlpha(ws[k][j]) by {
      forall k, j | 0 <= k < |ws| && 0 <= j < |ws[k]| ensures IsLowerAlpha(ws[k][j]) {
        var i :| 0 <= i < |m| && m[i] == ws[k][j];
      }
    }
    ws
  }

  /** A token of `remove_non_alpha`: a non-empty run of lower-case letters. */
  predicate IsToken(w: string) {
    |w| > 0 && forall i :: 0 <= i < |w| ==> IsLowerAlpha(w[i])
  }

  /** The tokens, glued together, are exactly the letters of the lower-cased
      input in their original order. */
  lemma LettersInOrder(s: string)
    ensures Concat(RemoveNonAlpha(s)) == Select(Lower(s), IsAlpha)
  {
    var l := Lower(s);
    var m := RemoveChars(l);
    SplitConcat(m);
    RemovedSpaces(l);
  }

  lemma {:induction false} RemovedSpaces(l: string)
    ensures NonSpace(RemoveChars(l)) == Select(l, IsAlpha)
    decreases |l|
  {
    if l != [] {
      RemovedSpaces(l[1..]);
      assert RemoveChars(l)[1..] == RemoveChars(l[1..]);
    }
  }

  /** A string without letters has no tokens. */
  lemma NoLettersNoTokens(s: string)
    requires forall i :: 0 <= i < |s| ==> !IsAlpha(s[i])
    ensures RemoveNonAlpha(s) == []
  {
    var ws := RemoveNonAlpha(s);
    LettersInOrder(s);
    NoneKept(Lower(s), IsAlpha);
  }

  /** Re-tokenising the space-joined tokens returns the same tokens. */
  lemma RemoveNonAlphaIdempotent(s: string)
    ensures RemoveNonAlpha(Join(RemoveNonAlpha(s))) == RemoveNonAlpha(s)
  {
    var ws := RemoveNonAlpha(s);
    var j := Join(ws);
    JoinChars(ws);
    assert Lower(j) == j;
    assert RemoveChars(j) == j;
    SplitJoin(ws);
  }

  /** Every character of a space-joined token list is a letter or a space. */
  lemma {:induction false} JoinChars(ws: seq<string>)
    requires forall k :: 0 <= k < |ws| ==> IsToken(ws[k])
    ensures forall i :: 0 <= i < |Join(ws)| ==> IsLowerAlpha(Join(ws)[i]) || Join(ws)[i] == ' '
    decreases |ws|
  {
    if |ws| > 1 {
      JoinChars(ws[1..]);
      var j := Join(ws[1..]);
      forall i | 0 <= i < |Join(ws)|
        ensures IsLowerAlpha(Join(ws)[i]) || Join(ws)[i] == ' '
      {
        if i > |ws[0]| {
          assert Join(ws)[i] == j[i - |ws[0]| - 1];
        }
      }
    }
  }

  /** Keeps the words with at least three characters that are not stopwords;
      with an empty stopword list it is the length filter of
      `simple_tokenizer`. */
  function FilterStopWords(ws: seq<string>, stopwords: seq<string>): (r: seq<string>)
    ensures |r| <= |ws|
    ensures forall k :: 0 <= k < |r| ==> r[k] !in stopwords && |r[k]| >= 3
  {
    if ws == [] then []
    else
      (if ws[0] !in stopwords && |ws[0]| >= 3 then [ws[0]] else [])
      + FilterStopWords(ws[1..], stopwords)
  }

  /** A word survives the filter exactly when it occurs in the input, is not
      a stopword and has at least three characters. */
  lemma {:induction false} FilterMembers(ws: seq<string>, stopwords: seq<string>, w: string)
    ensures w in FilterStopWords(ws, stopwords) <==> w in ws && w !in stopwords && |w| >= 3
    decreases |ws|
  {
    if ws != [] {
      FilterMembers(ws[1..], stopwords, w);
      assert ws == [ws[0]] + ws[1..];
    }
  }

  /** The filter keeps the input order: it distributes over concatenation. */
  lemma {:induction false} FilterAppend(a: seq<string>, b: seq<string>, stopwords: seq<string>)
    ensures FilterStopWords(a + b, stopwords) == FilterStopWords(a, stopwords) + FilterStopWords(b, stopwords)
    decreases |a|
  {
    if a != [] {
      var ab := a + b;
      assert ab[0] == a[0] && ab[1..] == a[1..] + b;
      FilterAppend(a[1..], b, stopwords);
    } else {
      assert a + b == b;
    }
  }

  /** `simple_tokenizer`: one token list per document. */
  function SimpleTokenizer(docs: seq<string>): (r: seq<seq<string>>)
    ensures |r| == |docs|
    ensures forall d, k :: 0 <= d < |r| && 0 <= k < |r[d]| ==> IsToken(r[d][k]) && |r[d][k]| >= 3
    ensures forall d :: 0 <= d < |docs| ==> r[d] == FilterStopWords(RemoveNonAlpha(docs[d]), [])
  {
    if docs == [] then []
    else
      var kept := FilterStopWords(Split(Lower(RemoveChars(docs[0]))), []);
      SimpleTokens(docs[0]);
      [kept] + SimpleTokenizer(docs[1..])
  }

  /** One document's list: the filtered `remove_non_alpha` words, each a
      token of at least 3 letters. */
  lemma SimpleTokens(doc: string)
    ensures FilterStopWords(Split(Lower(RemoveChars(doc))), []) == FilterStopWords(RemoveNonAlpha(doc), [])
    ensures forall k :: 0 <= k < |FilterStopWords(RemoveNonAlpha(doc), [])| ==>
              IsToken(FilterStopWords(RemoveNonAlpha(doc), [])[k]) && |FilterStopWords(RemoveNonAlpha(doc), [])[k]| >= 3
  {
    LowerRemovedIsRemovedLower(doc);
    var ws := RemoveNonAlpha(doc);
    var kept := FilterStopWords(ws, []);
    forall k | 0 <= k < |kept| ensures IsToken(kept[k]) && |kept[k]| >= 3 {
      FilterMembers(ws, [], kept[k]);
    }
  }

  /** For ASCII, lower-casing and blanking non-letters commute. */
  lemma LowerRemovedIsRemovedLower(s: string)
    ensures Lower(RemoveChars(s)) == RemoveChars(Lower(s))
  {
  }

  /** The query-line transformation of `load_queries`: drop raw words shorter
      than three characters or in the stopword list, rejoin, tokenise, and
      stem each token. */
  function QueryTokens(line: string, stopwords: seq<string>, stem: string -> string): (r: seq<string>)
    ensures |r| == |RemoveNonAlpha(Join(FilterStopWords(Split(line), stopwords)))|
  {
    var ws := RemoveNonAlpha(Join(FilterStopWords(Split(line), stopwords)));
    seq(|ws|, i requires 0 <= i < |ws| => stem(ws[i]))
  }

  /** The lower-cased letters of the words, word after word. */
  function LettersOf(ws: seq<string>): string {
    if ws == [] then "" else Select(Lower(ws[0]), IsAlpha) + LettersOf(ws[1..])
  }

  lemma LowerAppend(a: string, b: string)
    ensures Lower(a + b) == Lower(a) + Lower(b)
  {
    assert forall i :: 0 <= i < |a + b| ==> Lower(a + b)[i] == (Lower(a) + Lower(b))[i];
  }

  /** Joining with spaces adds no letters. */
  lemma {:induction false} JoinLetters(ws: seq<string>)
    ensures Select(Lower(Join(ws)), IsAlpha) == LettersOf(ws)
    decreases |ws|
  {
    if |ws| == 1 {
      assert LettersOf(ws[1..]) == "";
      assert Select(Lower(ws[0]), IsAlpha) + "" == Select(Lower(ws[0]), IsAlpha);
    } else if |ws| > 1 {
      var rest := Join(ws[1..]);
      assert Join(ws) == ws[0] + (" " + rest);
      LowerAppend(ws[0], " " + rest);
      LowerAppend(" ", rest);
      SelectAppend(Lower(ws[0]), Lower(" ") + Lower(rest), IsAlpha);
      SelectAppend(Lower(" "), Lower(rest), IsAlpha);
      assert Select(Lower(" "), IsAlpha) == "" by {
        assert Lower(" ") == " ";
      }
      JoinLetters(ws[1..]);
    }
  }

  /** Before stemming, the query tokens spell out exactly the lower-cased
      letters of the words that survive the filter, in order: nothing of a
      dropped word gets through, and nothing of a kept word is lost. */
  lemma QueryLetters(line: string, stopwords: seq<string>)
    ensures Concat(RemoveNonAlpha(Join(FilterStopWords(Split(line), stopwords)))) ==
              LettersOf(FilterStopWords(Split(line), stopwords))
  {
    var kept := FilterStopWords(Split(line), stopwords);
    LettersInOrder(Join(kept));
    JoinLetters(kept);
  }

  /** The length filter runs before punctuation is removed, so a query token
      may be shorter than three characters: "x-ray" gives "x" and "ray". */
  lemma ShortQueryToken()
    ensures QueryTokens("x-ray", [], w => w) == ["x", "ray"]
  {
    var line := "x-ray";
    assert Split(line) == [line] by {
      SplitWord(line, "");
      assert line + "" == line;
    }
    assert FilterStopWords([line], []) == [line];
    assert Join([line]) == line;
    XRayTokens();
  }

  lemma XRayTokens()
    ensures RemoveNonAlpha("x-ray") == ["x", "ray"]
  {
    XRayLower();
    XRayBlanked();
    XRaySplit();
  }

  lemma XRayLower()
    ensures Lower("x-ray") == "x-ray"
  {
    assert Lower("ray") == "ray";
  }

  lemma XRayBlanked()
    ensures RemoveChars("x-ray") == "x ray"
  {
    assert RemoveChars("ray") == "ray";
  }

  lemma XRaySplit()
    ensures Split("x ray") == ["x", "ray"]
  {
    SplitWord("x", " ray");
    assert "x" + " ray" == "x ray";
    assert " ray"[1..] == "ray";
    SplitWord("ray", "");
    assert "ray" + "" == "ray";
  }
}
