/**
 * Full names split into parts, compound parts kept whole (packages/contracts/src/common/field-rules.ts, lines 47-82).
 */
module NameParts {
  import opened Sequences

  /** Words that bind to the next word, words that bind to the one before, and white space. */
  datatype Rules = Rules(binder: string -> bool, suffix: string -> bool, space: char -> bool)

  // ---------------------------------------------------------------- words

  /** The words of a text, given the letters read of the current one. */
  function WordsFrom(space: char -> bool, s: string, current: string): seq<string>
    decreases |s|
  {
    if s == "" then (if current == "" then [] else [current])
    else if space(s[0]) then (if current == "" then [] else [current]) + WordsFrom(space, s[1..], "")
    else WordsFrom(space, s[1..], current + [s[0]])
  }

  /** `value.trim().split(/\s+/)` without the empty pieces. */
  function Words(space: char -> bool, s: string): seq<string> {
    WordsFrom(space, s, "")
  }

  predicate IsWord(space: char -> bool, w: string) {
    w != "" && forall i :: 0 <= i < |w| ==> !space(w[i])
  }

  predicate AllWords(space: char -> bool, ws: seq<string>) {
    forall i :: 0 <= i < |ws| ==> IsWord(space, ws[i])
  }

  lemma {:induction false} WordsAreWords(space: char -> bool, s: string, current: string)
    requires current != "" ==> IsWord(space, current)
    ensures AllWords(space, WordsFrom(space, s, current))
    decreases |s|
  {
    if s != "" {
      if space(s[0]) {
        WordsAreWords(space, s[1..], "");
      } else {
        WordsAreWords(space, s[1..], current + [s[0]]);
      }
    }
  }

  /** `join(' ')` */
  function JoinSpaced(ws: seq<string>): string {
    if ws == [] then "" else if |ws| == 1 then ws[0] else ws[0] + " " + JoinSpaced(ws[1..])
  }

  lemma {:induction false} WordRead(space: char -> bool, w: string, rest: string, current: string)
    requires forall i :: 0 <= i < |w| ==> !space(w[i])
    ensures WordsFrom(space, w + rest, current) == WordsFrom(space, rest, current + w)
    decreases |w|
  {
    if w == "" {
      assert w + rest == rest && current + w == current;
    } else {
      assert (w + rest)[0] == w[0] && (w + rest)[1..] == w[1..] + rest;
      WordRead(space, w[1..], rest, current + [w[0]]);
      assert current + [w[0]] + w[1..] == current + w;
    }
  }

  /** Words joined by spaces are read back as those words. */
  lemma {:induction false} WordsOfJoined(space: char -> bool, ws: seq<string>)
    requires AllWords(space, ws) && space(' ')
    ensures Words(space, JoinSpaced(ws)) == ws
  {
    if ws != [] {
      var w := ws[0];
      assert IsWord(space, w);
      if |ws| == 1 {
        assert w + "" == w && "" + w == w;
        WordRead(space, w, "", "");
        assert ws == [w];
      } else {
        var rest := " " + JoinSpaced(ws[1..]);
        assert JoinSpaced(ws) == w + rest;
        WordRead(space, w, rest, "");
        assert "" + w == w && rest[1..] == JoinSpaced(ws[1..]);
        assert AllWords(space, ws[1..]);
        WordsOfJoined(space, ws[1..]);
        assert ws == [w] + ws[1..];
      }
    }
  }

  // ---------------------------------------------------------------- grouping words into parts

  /** How many words at the front bind to the word before them. */
  function SuffixRun(suffix: string -> bool, ws: seq<string>): (n: nat)
    ensures n <= |ws|
  {
    if ws != [] && suffix(ws[0]) then 1 + SuffixRun(suffix, ws[1..]) else 0
  }

  /** How many words the first part takes: a binder takes the next word, and then come the suffixes. */
  function FirstPart(r: Rules, ws: seq<string>): (n: nat)
    requires ws != []
    ensures 0 < n <= |ws|
  {
    var core := if r.binder(ws[0]) && |ws| > 1 then 2 else 1;
    core + SuffixRun(r.suffix, ws[core..])
  }

  function Groups(r: Rules, ws: seq<string>): seq<seq<string>>
    decreases |ws|
  {
    if ws == [] then []
    else
      var n := FirstPart(r, ws);
      [ws[..n]] + Groups(r, ws[n..])
  }

  function Concat(groups: seq<seq<string>>): seq<string> {
    if groups == [] then [] else groups[0] + Concat(groups[1..])
  }

  /** The texts of the parts. */
  function Texts(groups: seq<seq<string>>): seq<string> {
    Mapped(groups, JoinSpaced)
  }

  function PartsOf(r: Rules, value: string): seq<string> {
    Texts(Groups(r, Words(r.space, value)))
  }

  lemma {:induction false} JoinSnoc(ws: seq<string>, w: string)
    requires ws != []
    ensures JoinSpaced(ws + [w]) == JoinSpaced(ws) + " " + w
  {
    if |ws| == 1 {
      assert (ws + [w])[1..] == [w];
    } else {
      assert (ws + [w])[1..] == ws[1..] + [w];
      JoinSnoc(ws[1..], w);
    }
  }

  /** `nameParts`: an index that looks ahead, and a part that grows. */
  method NamePartsOf(r: Rules, value: string) returns (parts: seq<string>)
    ensures parts == PartsOf(r, value)
  {
    hide Groups, FirstPart, Texts, WordsFrom, JoinSpaced;
    var words := Words(r.space, value);
    assert words[0..] == words;
    parts := [];
    var i := 0;
    while i < |words|
      invariant 0 <= i <= |words|
      invariant Texts(Groups(r, words)) == parts + Texts(Groups(r, words[i..]))
    {
      var part, next := ReadPart(r, words, i);
      NextPart(r, words, i);
      parts := parts + [part];
      i := next;
    }
    assert words[i..] == [];
    NoMoreParts(r);
  }

  lemma {:induction false} NextPart(r: Rules, words: seq<string>, i: nat)
    requires i < |words|
    ensures var next := i + FirstPart(r, words[i..]);
            Texts(Groups(r, words[i..])) == [JoinSpaced(words[i..next])] + Texts(Groups(r, words[next..]))
  {
    hide FirstPart, JoinSpaced;
    var rest := words[i..];
    var n := FirstPart(r, rest);
    assert rest[n..] == words[i + n..] && rest[..n] == words[i..i + n];
  }

  lemma {:induction false} NoMoreParts(r: Rules)
    ensures Texts(Groups(r, [])) == []
  {
  }

  /** The core of a part: a word, or a binder and the next word. */
  lemma {:induction false} PartSoFar(r: Rules, words: seq<string>, i: nat)
    requires i < |words|
    ensures var core := if r.binder(words[i]) && i + 1 < |words| then 2 else 1;
            && FirstPart(r, words[i..]) == core + SuffixRun(r.suffix, words[i + core..])
            && JoinSpaced(words[i..i + core]) == if core == 2 then words[i] + " " + words[i + 1] else words[i]
  {
    var core := if r.binder(words[i]) && i + 1 < |words| then 2 else 1;
    assert words[i..][core..] == words[i + core..];
    if core == 2 {
      assert words[i..i + 2] == [words[i], words[i + 1]] && [words[i], words[i + 1]][1..] == [words[i + 1]];
    } else {
      assert words[i..i + 1] == [words[i]];
    }
  }

  lemma {:induction false} OneMoreWord(r: Rules, words: seq<string>, i: nat, next: nat)
    requires i < next < |words|
    ensures JoinSpaced(words[i..next + 1]) == JoinSpaced(words[i..next]) + " " + words[next]
    ensures SuffixRun(r.suffix, words[next..]) ==
            if r.suffix(words[next]) then 1 + SuffixRun(r.suffix, words[next + 1..]) else 0
  {
    hide JoinSpaced;
    JoinSnoc(words[i..next], words[next]);
    assert words[i..next] + [words[next]] == words[i..next + 1];
    assert words[next..][0] == words[next] && words[next..][1..] == words[next + 1..];
  }

  lemma {:induction false} NoSuffix(r: Rules, words: seq<string>, next: nat)
    requires next <= |words| && (next < |words| ==> !r.suffix(words[next]))
    ensures SuffixRun(r.suffix, words[next..]) == 0
  {
    if next < |words| {
      assert words[next..][0] == words[next];
    }
  }

  method ReadPart(r: Rules, words: seq<string>, i: nat) returns (part: string, next: nat)
    requires i < |words|
    ensures next == i + FirstPart(r, words[i..]) && part == JoinSpaced(words[i..next])
  {
    hide FirstPart, SuffixRun, JoinSpaced;
    PartSoFar(r, words, i);
    part, next := words[i], i + 1;
    if r.binder(part) && next < |words| {
      part := part + " " + words[next];
      next := next + 1;
    }
    while next < |words| && r.suffix(words[next])
      invariant i < next <= |words| && part == JoinSpaced(words[i..next])
      invariant FirstPart(r, words[i..]) == next - i + SuffixRun(r.suffix, words[next..])
    {
      OneMoreWord(r, words, i, next);
      part := part + " " + words[next];
      next := next + 1;
    }
    NoSuffix(r, words, next);
  }

  // ---------------------------------------------------------------- every word, in order

  /** No word is lost, doubled or moved. */
  lemma {:induction false} PartsKeepWords(r: Rules, ws: seq<string>)
    ensures Concat(Groups(r, ws)) == ws
    ensures forall g :: g in Groups(r, ws) ==> g != []
    decreases |ws|
  {
    if ws != [] {
      var n := FirstPart(r, ws);
      PartsKeepWords(r, ws[n..]);
      assert ws == ws[..n] + ws[n..];
      assert ([ws[..n]] + Groups(r, ws[n..]))[1..] == Groups(r, ws[n..]);
    }
  }

  // ---------------------------------------------------------------- leading parts

  /** Cut right after the first part, or anywhere later, the first part is read the same. */
  lemma {:induction false} SuffixRunCut(suffix: string -> bool, ws: seq<string>, m: nat)
    requires SuffixRun(suffix, ws) <= m <= |ws|
    ensures SuffixRun(suffix, ws[..m]) == SuffixRun(suffix, ws)
  {
    if ws != [] && suffix(ws[0]) {
      assert ws[..m][1..] == ws[1..][..m - 1];
      SuffixRunCut(suffix, ws[1..], m - 1);
    }
  }

  lemma {:induction false} FirstPartCut(r: Rules, ws: seq<string>, m: nat)
    requires ws != [] && FirstPart(r, ws) <= m <= |ws|
    ensures FirstPart(r, ws[..m]) == FirstPart(r, ws)
  {
    var core := if r.binder(ws[0]) && |ws| > 1 then 2 else 1;
    assert ws[..m][core..] == ws[core..][..m - core];
    SuffixRunCut(r.suffix, ws[core..], m - core);
  }

  lemma {:induction false} ConcatCons(g: seq<string>, groups: seq<seq<string>>)
    ensures Concat([g] + groups) == g + Concat(groups)
  {
    assert ([g] + groups)[1..] == groups;
  }

  lemma {:induction false} ConcatPrefix(groups: seq<seq<string>>, k: nat)
    requires k <= |groups|
    ensures Concat(groups[..k]) <= Concat(groups)
  {
    if k > 0 {
      assert groups[..k][1..] == groups[1..][..k - 1];
      ConcatPrefix(groups[1..], k - 1);
    }
  }

  lemma {:induction false} NothingConcat()
    ensures Concat([]) == []
  {
  }

  /** A first part, followed by a beginning of what followed it. */
  lemma {:induction false} CutGroups(r: Rules, ws: seq<string>, n: nat, tail: seq<string>)
    requires ws != [] && n == FirstPart(r, ws) && tail <= ws[n..]
    ensures Groups(r, ws[..n] + tail) == [ws[..n]] + Groups(r, tail)
  {
    hide FirstPart;
    var cut := ws[..n] + tail;
    assert cut == ws[..|cut|];
    FirstPartCut(r, ws, |cut|);
    assert cut[..n] == ws[..n] && cut[n..] == tail;
  }

  /** Reading the words of the first parts gives exactly those parts. */
  lemma {:induction false} LeadingGroups(r: Rules, ws: seq<string>, k: nat)
    requires k <= |Groups(r, ws)|
    ensures Groups(r, Concat(Groups(r, ws)[..k])) == Groups(r, ws)[..k]
    decreases |ws|
  {
    hide FirstPart, Concat;
    if k > 0 {
      var n := FirstPart(r, ws);
      var first, rest := ws[..n], Groups(r, ws[n..]);
      assert Groups(r, ws)[..k] == [first] + rest[..k - 1];
      LeadingGroups(r, ws[n..], k - 1);
      var tail := Concat(rest[..k - 1]);
      ConcatCons(first, rest[..k - 1]);
      PartsKeepWords(r, ws[n..]);
      ConcatPrefix(rest, k - 1);
      CutGroups(r, ws, n, tail);
    } else {
      NothingConcat();
    }
  }

  /** Where `slice(0, count)` ends: a negative count is taken from the end. */
  function SliceEnd(count: int, length: nat): nat {
    if count < 0 then (if -count <= length then length + count else 0)
    else if count <= length then count
    else length
  }

  /** `leadingNameParts` */
  function LeadingNameParts(r: Rules, value: string, count: int): string {
    var parts := PartsOf(r, value);
    JoinSpaced(parts[..SliceEnd(count, |parts|)])
  }

  lemma {:induction false} JoinConcat(a: seq<string>, b: seq<string>)
    requires a != [] && b != []
    ensures JoinSpaced(a + b) == JoinSpaced(a) + " " + JoinSpaced(b)
  {
    if |a| == 1 {
      assert (a + b)[1..] == b;
    } else {
      assert (a + b)[1..] == a[1..] + b;
      JoinConcat(a[1..], b);
    }
  }

  /** Joining the parts is joining the words. */
  lemma {:induction false} JoinTexts(groups: seq<seq<string>>)
    requires forall i :: 0 <= i < |groups| ==> groups[i] != []
    ensures JoinSpaced(Texts(groups)) == JoinSpaced(Concat(groups))
    ensures groups != [] ==> Concat(groups) != []
  {
    if groups != [] {
      JoinTexts(groups[1..]);
      assert Texts(groups)[1..] == Texts(groups[1..]);
      if |groups| == 1 {
        assert Concat(groups) == groups[0];
      } else {
        JoinConcat(groups[0], Concat(groups[1..]));
      }
    }
  }

  /** The first `count` parts, read again, are exactly those parts, compound ones included. */
  lemma {:induction false} LeadingIsStable(r: Rules, value: string, count: int)
    requires r.space(' ')
    ensures var parts := PartsOf(r, value);
            PartsOf(r, LeadingNameParts(r, value, count)) == parts[..SliceEnd(count, |parts|)]
  {
    hide WordsFrom, FirstPart;
    var ws := Words(r.space, value);
    var groups := Groups(r, ws);
    var k := SliceEnd(count, |groups|);
    var front := groups[..k];
    PartsKeepWords(r, ws);
    assert forall i :: 0 <= i < k ==> front[i] in groups;
    assert Texts(groups)[..k] == Texts(front);
    JoinTexts(front);
    assert LeadingNameParts(r, value, count) == JoinSpaced(Texts(front));
    WordsAreWords(r.space, value, "");
    ConcatPrefix(groups, k);
    assert AllWords(r.space, Concat(front));
    WordsOfJoined(r.space, Concat(front));
    LeadingGroups(r, ws, k);
  }

  /** So it has as many parts as the slice: the smaller of the two numbers, for a count that is not negative. */
  lemma {:induction false} LeadingCount(r: Rules, value: string, count: int)
    requires r.space(' ')
    ensures |PartsOf(r, LeadingNameParts(r, value, count))| == SliceEnd(count, |PartsOf(r, value)|)
    ensures count >= 0 ==> |PartsOf(r, LeadingNameParts(r, value, count))| <= count
  {
    hide PartsOf, LeadingNameParts;
    LeadingIsStable(r, value, count);
  }
}
