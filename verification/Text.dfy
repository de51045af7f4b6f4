/** White space, fields and joining, as in Go's `strings` package; characters are Unicode code points. */
module Text {

  predicate IsSpace(c: char) {
    || '\t' <= c <= '\r' || c == ' ' || c == '\U{85}' || c == '\U{A0}' || c == '\U{1680}'
    || '\U{2000}' <= c <= '\U{200A}' || c == '\U{2028}' || c == '\U{2029}' || c == '\U{202F}' || c == '\U{205F}'
    || c == '\U{3000}'
  }

  function TrimLeft(s: string): string {
    if s != [] && IsSpace(s[0]) then TrimLeft(s[1..]) else s
  }

  function TrimRight(s: string): string {
    if s != [] && IsSpace(s[|s| - 1]) then TrimRight(s[..|s| - 1]) else s
  }

  function TrimSpace(s: string): string {
    TrimRight(TrimLeft(s))
  }

  /** The number of characters before the first space. */
  function WordEnd(s: string): (n: nat)
    ensures n <= |s|
    ensures forall i :: 0 <= i < n ==> !IsSpace(s[i])
    ensures n < |s| ==> IsSpace(s[n])
  {
    if s == [] || IsSpace(s[0]) then 0 else 1 + WordEnd(s[1..])
  }

  function Fields(s: string): seq<string>
    decreases |s|
  {
    if s == [] then []
    else if IsSpace(s[0]) then Fields(s[1..])
    else
      var n := WordEnd(s);
      [s[..n]] + Fields(s[n..])
  }

  function Join(words: seq<string>): string {
    if words == [] then ""
    else if |words| == 1 then words[0]
    else words[0] + " " + Join(words[1..])
  }

  predicate IsWord(w: string) {
    w != [] && forall i :: 0 <= i < |w| ==> !IsSpace(w[i])
  }

  predicate AllWords(words: seq<string>) {
    forall i :: 0 <= i < |words| ==> IsWord(words[i])
  }

  lemma WordEndIs(s: string, n: nat)
    requires n <= |s|
    requires forall i :: 0 <= i < n ==> !IsSpace(s[i])
    requires n < |s| ==> IsSpace(s[n])
    ensures WordEnd(s) == n
  {
  }

  lemma {:induction false} FieldsAreWords(s: string)
    ensures AllWords(Fields(s))
    decreases |s|
  {
    if s != [] {
      if IsSpace(s[0]) {
        FieldsAreWords(s[1..]);
      } else {
        FieldsAreWords(s[WordEnd(s)..]);
      }
    }
  }

  /** `words[i]` stands at `starts[i]`; the words come in order, apart, and leave out only white space. */
  ghost predicate AreWordsOf(s: string, words: seq<string>, starts: seq<nat>) {
    && |starts| == |words| && AllWords(words)
    && (forall i :: 0 <= i < |words| ==>
                      starts[i] + |words[i]| <= |s| && s[starts[i]..starts[i] + |words[i]|] == words[i])
    && (forall i :: 0 <= i < |words| - 1 ==> starts[i] + |words[i]| < starts[i + 1])
    && (forall k :: 0 <= k < |s| && !IsSpace(s[k]) ==>
                      exists i :: 0 <= i < |words| && starts[i] <= k < starts[i] + |words[i]|)
  }

  function Shifted(starts: seq<nat>, n: nat): seq<nat> {
    seq(|starts|, i requires 0 <= i < |starts| => starts[i] + n)
  }

  /** The fields are the maximal runs of characters that are not white space, in order. */
  lemma {:induction false} FieldsAreTheWords(s: string) returns (starts: seq<nat>)
    ensures AreWordsOf(s, Fields(s), starts)
    decreases |s|
  {
    if s == [] {
      starts := [];
    } else if IsSpace(s[0]) {
      var later := FieldsAreTheWords(s[1..]);
      starts := Shifted(later, 1);
      SpaceThenWords(s, Fields(s), later);
    } else {
      var n := WordEnd(s);
      var later := FieldsAreTheWords(s[n..]);
      starts := [0] + Shifted(later, n);
      FirstWordStands(s, n, later, starts);
    }
  }

  lemma SpaceThenWords(s: string, words: seq<string>, later: seq<nat>)
    requires s != [] && IsSpace(s[0]) && AreWordsOf(s[1..], words, later)
    ensures AreWordsOf(s, words, Shifted(later, 1))
  {
    hide IsSpace;
    var starts := Shifted(later, 1);
    forall i | 0 <= i < |words|
      ensures starts[i] + |words[i]| <= |s| && s[starts[i]..starts[i] + |words[i]|] == words[i]
    {
      assert s[starts[i]..starts[i] + |words[i]|] == s[1..][later[i]..later[i] + |words[i]|];
    }
    forall k | 0 <= k < |s| && !IsSpace(s[k])
      ensures exists i :: 0 <= i < |words| && starts[i] <= k < starts[i] + |words[i]|
    {
      assert s[k] == s[1..][k - 1];
      var i :| 0 <= i < |words| && later[i] <= k - 1 < later[i] + |words[i]|;
      assert starts[i] <= k < starts[i] + |words[i]|;
    }
  }

  lemma WordBegins(s: string, words: seq<string>, starts: seq<nat>)
    requires AreWordsOf(s, words, starts) && words != []
    ensures starts[0] < |s| && !IsSpace(s[starts[0]])
  {
    assert IsWord(words[0]);
    assert s[starts[0]..starts[0] + |words[0]|][0] == s[starts[0]];
  }

  /** The words from `n` on, moved behind a first word. */
  ghost predicate Follow(s: string, n: nat, rest: seq<string>, later: seq<nat>, starts: seq<nat>) {
    && 0 < n <= |s| && (n < |s| ==> IsSpace(s[n])) && AreWordsOf(s[n..], rest, later)
    && |starts| == |later| + 1 && starts[0] == 0
    && forall i :: 0 <= i < |later| ==> starts[i + 1] == later[i] + n
  }

  lemma FirstWordStands(s: string, n: nat, later: seq<nat>, starts: seq<nat>)
    requires s != [] && !IsSpace(s[0]) && n == WordEnd(s) && Follow(s, n, Fields(s[n..]), later, starts)
    ensures AreWordsOf(s, Fields(s), starts)
  {
    hide AreWordsOf, Follow, IsSpace;
    var rest := Fields(s[n..]);
    WordsStand(s, n, rest, later, starts);
    WordsAreApart(s, n, rest, later, starts);
    forall k | 0 <= k < |s| && !IsSpace(s[k]) ensures Covered([s[..n]] + rest, starts, k) {
      WordsCover(s, n, rest, later, starts, k);
    }
    AssembleWords(s, [s[..n]] + rest, starts);
  }

  ghost predicate Covered(words: seq<string>, starts: seq<nat>, k: int) {
    |starts| == |words| && exists i :: 0 <= i < |words| && starts[i] <= k < starts[i] + |words[i]|
  }

  lemma AssembleWords(s: string, words: seq<string>, starts: seq<nat>)
    requires |starts| == |words| && AllWords(words)
    requires forall i :: 0 <= i < |words| ==>
                           starts[i] + |words[i]| <= |s| && s[starts[i]..starts[i] + |words[i]|] == words[i]
    requires forall i :: 0 <= i < |words| - 1 ==> starts[i] + |words[i]| < starts[i + 1]
    requires forall k :: 0 <= k < |s| && !IsSpace(s[k]) ==> Covered(words, starts, k)
    ensures AreWordsOf(s, words, starts)
  {
    hide IsSpace;
  }

  lemma WordsStand(s: string, n: nat, rest: seq<string>, later: seq<nat>, starts: seq<nat>)
    requires Follow(s, n, rest, later, starts) && forall i :: 0 <= i < n ==> !IsSpace(s[i])
    ensures var words := [s[..n]] + rest;
            && |starts| == |words| && AllWords(words)
            && forall i :: 0 <= i < |words| ==>
                             starts[i] + |words[i]| <= |s| && s[starts[i]..starts[i] + |words[i]|] == words[i]
  {
    hide IsSpace;
    var words := [s[..n]] + rest;
    forall i | 0 <= i < |words|
      ensures starts[i] + |words[i]| <= |s| && s[starts[i]..starts[i] + |words[i]|] == words[i]
    {
      if i > 0 {
        assert s[starts[i]..starts[i] + |words[i]|] == s[n..][later[i - 1]..later[i - 1] + |rest[i - 1]|];
      }
    }
  }

  lemma WordsAreApart(s: string, n: nat, rest: seq<string>, later: seq<nat>, starts: seq<nat>)
    requires Follow(s, n, rest, later, starts)
    ensures var words := [s[..n]] + rest;
            |starts| == |words| && forall i :: 0 <= i < |words| - 1 ==> starts[i] + |words[i]| < starts[i + 1]
  {
    hide IsSpace;
    if rest != [] {
      WordBegins(s[n..], rest, later);
      assert s[n..][0] == s[n];
    }
    var words := [s[..n]] + rest;
    forall i | 0 <= i < |words| - 1 ensures starts[i] + |words[i]| < starts[i + 1] {
      if i > 0 {
        assert words[i] == rest[i - 1] && starts[i] == later[i - 1] + n && starts[i + 1] == later[i] + n;
        assert later[i - 1] + |rest[i - 1]| < later[i - 1 + 1];
      }
    }
  }

  lemma WordsCover(s: string, n: nat, rest: seq<string>, later: seq<nat>, starts: seq<nat>, k: nat)
    requires Follow(s, n, rest, later, starts) && k < |s| && !IsSpace(s[k])
    ensures Covered([s[..n]] + rest, starts, k)
  {
    hide IsSpace;
    var words := [s[..n]] + rest;
    if k < n {
      assert starts[0] <= k < starts[0] + |words[0]|;
    } else {
      assert s[k] == s[n..][k - n];
      var i :| 0 <= i < |rest| && later[i] <= k - n < later[i] + |rest[i]|;
      assert starts[i + 1] <= k < starts[i + 1] + |words[i + 1]|;
    }
  }

  /** A text has no fields exactly when all of it is white space. */
  lemma NoFields(s: string)
    ensures Fields(s) == [] <==> forall k :: 0 <= k < |s| ==> IsSpace(s[k])
  {
    var starts := FieldsAreTheWords(s);
    if Fields(s) != [] {
      WordBegins(s, Fields(s), starts);
    }
  }

  /** A space separates: the fields of both sides, one after the other. */
  lemma {:induction false} FieldsSplit(a: string, c: char, b: string)
    requires IsSpace(c)
    ensures Fields(a + [c] + b) == Fields(a) + Fields(b)
    decreases |a|
  {
    hide IsSpace;
    var s := a + [c] + b;
    if a == [] {
      assert s[1..] == b;
    } else if IsSpace(a[0]) {
      FieldsSplit(a[1..], c, b);
      assert s[1..] == a[1..] + [c] + b;
    } else {
      var n := WordEnd(a);
      WordEndIs(s, n);
      FieldsSplit(a[n..], c, b);
      assert s[..n] == a[..n] && s[n..] == a[n..] + [c] + b;
      assert Fields(s) == [s[..n]] + Fields(s[n..]);
    }
  }

  lemma FieldsOfWord(w: string)
    requires IsWord(w)
    ensures Fields(w) == [w]
  {
    WordEndIs(w, |w|);
    assert w[..|w|] == w;
  }

  lemma FieldsOfWordAnd(w: string, rest: string)
    requires IsWord(w)
    ensures Fields(w + " " + rest) == [w] + Fields(rest)
  {
    FieldsSplit(w, ' ', rest);
    FieldsOfWord(w);
  }

  /** Joined words come apart into the same words. */
  lemma {:induction false} FieldsOfJoin(words: seq<string>)
    requires AllWords(words)
    ensures Fields(Join(words)) == words
  {
    if |words| == 1 {
      FieldsOfWord(words[0]);
    } else if words != [] {
      FieldsOfWordAnd(words[0], Join(words[1..]));
      FieldsOfJoin(words[1..]);
    }
  }

  lemma {:induction false} FieldsOfTrimLeft(s: string)
    ensures Fields(TrimLeft(s)) == Fields(s)
    ensures TrimLeft(s) != [] ==> !IsSpace(TrimLeft(s)[0])
  {
    if s != [] && IsSpace(s[0]) {
      FieldsOfTrimLeft(s[1..]);
    }
  }

  lemma {:induction false} FieldsOfTrimRight(s: string)
    ensures Fields(TrimRight(s)) == Fields(s)
    ensures TrimRight(s) == [] ==> forall i :: 0 <= i < |s| ==> IsSpace(s[i])
    ensures TrimRight(s) != [] ==> s != [] && TrimRight(s)[0] == s[0]
  {
    if s != [] && IsSpace(s[|s| - 1]) {
      var front := s[..|s| - 1];
      FieldsOfTrimRight(front);
      FieldsSplit(front, s[|s| - 1], "");
      assert s == front + [s[|s| - 1]] + "";
    }
  }

  /** Trimming does not change the fields, and leaves nothing exactly when there are none. */
  lemma FieldsOfTrim(s: string)
    ensures Fields(TrimSpace(s)) == Fields(s)
    ensures TrimSpace(s) == [] <==> Fields(s) == []
  {
    FieldsOfTrimLeft(s);
    FieldsOfTrimRight(TrimLeft(s));
  }

  // ---------------------------------------------------------------- Normalised text

  /** The only white space is single blanks with other characters on both sides. */
  predicate IsNormal(s: string) {
    forall i :: 0 <= i < |s| && IsSpace(s[i]) ==> s[i] == ' ' && 0 < i < |s| - 1 && !IsSpace(s[i + 1])
  }

  lemma {:induction false} JoinIsNormal(words: seq<string>)
    requires AllWords(words)
    ensures IsNormal(Join(words))
    ensures words != [] ==> Join(words) != "" && !IsSpace(Join(words)[0])
  {
    if |words| > 1 {
      var w, rest := words[0], Join(words[1..]);
      JoinIsNormal(words[1..]);
      var s := w + " " + rest;
      forall i | 0 <= i < |s| && IsSpace(s[i])
        ensures s[i] == ' ' && 0 < i < |s| - 1 && !IsSpace(s[i + 1])
      {
        if i < |w| {
          assert false;
        } else if i == |w| {
          assert s[i + 1] == rest[0];
        } else {
          assert s[i] == rest[i - |w| - 1];
          assert s[i + 1] == rest[i - |w|];
        }
      }
    }
  }

  lemma {:induction false} NormalIsItsWords(s: string)
    requires IsNormal(s)
    ensures s == Join(Fields(s))
    ensures s != "" ==> Fields(s) != []
    decreases |s|
  {
    if s != "" {
      assert !IsSpace(s[0]);
      var n := WordEnd(s);
      if n == |s| {
        assert s[..n] == s && s[n..] == [];
      } else {
        var rest := s[n..][1..];
        assert rest == s[n + 1..];
        TailIsNormal(s, n + 1);
        NormalIsItsWords(rest);
        assert Fields(s[n..]) == Fields(rest);
        JoinFirst(s[..n], Fields(rest));
        assert s == s[..n] + " " + rest;
      }
    }
  }

  lemma TailIsNormal(s: string, n: nat)
    requires IsNormal(s) && 0 < n <= |s| && s[n - 1] == ' '
    ensures IsNormal(s[n..]) && s[n..] != "" && !IsSpace(s[n])
  {
    assert IsSpace(s[n - 1]);
    var rest := s[n..];
    assert forall i :: 0 <= i < |rest| ==> rest[i] == s[i + n];
  }

  lemma JoinFirst(w: string, words: seq<string>)
    requires words != []
    ensures Join([w] + words) == w + " " + Join(words)
  {
    assert ([w] + words)[1..] == words;
  }

  /** A text is normal exactly when it is its own words separated by single blanks. */
  lemma NormalMeansItsWords(s: string)
    ensures IsNormal(s) <==> s == Join(Fields(s))
  {
    if IsNormal(s) {
      NormalIsItsWords(s);
    } else {
      FieldsAreWords(s);
      JoinIsNormal(Fields(s));
    }
  }

  lemma NormalHasNoNewline(s: string)
    requires IsNormal(s)
    ensures '\n' !in s
  {
  }

  // ---------------------------------------------------------------- A file read whole

  /** Every "\r\n" becomes a blank. */
  function BlankCRLF(s: string): string
    decreases |s|
  {
    if s == [] then []
    else if |s| >= 2 && s[0] == '\r' && s[1] == '\n' then " " + BlankCRLF(s[2..])
    else [s[0]] + BlankCRLF(s[1..])
  }

  /** Every "\n" becomes a blank. */
  function BlankLF(s: string): string {
    if s == [] then [] else [if s[0] == '\n' then ' ' else s[0]] + BlankLF(s[1..])
  }

  /** The content that the client sends for a file. */
  function WholeFile(data: string): string {
    Join(Fields(BlankLF(BlankCRLF(data))))
  }

  lemma {:induction false} BlankCRLFWord(s: string, n: nat)
    requires n <= |s| && forall i :: 0 <= i < n ==> !IsSpace(s[i])
    ensures BlankCRLF(s) == s[..n] + BlankCRLF(s[n..])
    ensures n < |s| && IsSpace(s[n]) ==> BlankCRLF(s[n..]) != [] && IsSpace(BlankCRLF(s[n..])[0])
  {
    if n > 0 {
      BlankCRLFWord(s[1..], n - 1);
      assert s[1..][n - 1..] == s[n..];
      assert [s[0]] + s[1..][..n - 1] == s[..n];
    }
  }

  lemma {:induction false} FieldsOfBlankCRLF(s: string)
    ensures Fields(BlankCRLF(s)) == Fields(s)
    decreases |s|
  {
    if s == [] {
    } else if IsSpace(s[0]) {
      if |s| >= 2 && s[0] == '\r' && s[1] == '\n' {
        FieldsOfBlankCRLF(s[2..]);
        assert BlankCRLF(s)[1..] == BlankCRLF(s[2..]);
        assert s[1..][1..] == s[2..];
      } else {
        FieldsOfBlankCRLF(s[1..]);
        assert BlankCRLF(s)[1..] == BlankCRLF(s[1..]);
      }
    } else {
      var n := WordEnd(s);
      BlankCRLFWord(s, n);
      FieldsOfBlankCRLF(s[n..]);
      var t := BlankCRLF(s);
      WordEndIs(t, n);
      assert t[..n] == s[..n] && t[n..] == BlankCRLF(s[n..]);
    }
  }

  lemma {:induction false} BlankLFIs(s: string)
    ensures |BlankLF(s)| == |s|
    ensures forall i :: 0 <= i < |s| ==> BlankLF(s)[i] == if s[i] == '\n' then ' ' else s[i]
  {
    if s != [] {
      BlankLFIs(s[1..]);
    }
  }

  lemma {:induction false} FieldsOfBlankLF(s: string, t: string)
    requires |t| == |s| && forall i :: 0 <= i < |s| ==> t[i] == if s[i] == '\n' then ' ' else s[i]
    ensures Fields(t) == Fields(s)
    decreases |s|
  {
    if s == [] {
    } else if IsSpace(s[0]) {
      FieldsOfBlankLF(s[1..], t[1..]);
    } else {
      var n := WordEnd(s);
      WordEndIs(t, n);
      FieldsOfBlankLF(s[n..], t[n..]);
      assert t[..n] == s[..n];
    }
  }

  /** The line-end replacements change nothing: the content is the file's words separated by blanks. */
  lemma WholeFileIsItsWords(data: string)
    ensures WholeFile(data) == Join(Fields(data))
    ensures IsNormal(WholeFile(data))
  {
    FieldsOfBlankCRLF(data);
    BlankLFIs(BlankCRLF(data));
    FieldsOfBlankLF(BlankCRLF(data), BlankLF(BlankCRLF(data)));
    FieldsAreWords(data);
    JoinIsNormal(Fields(data));
  }
}
