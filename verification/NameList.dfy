/** Lists of free-text names in one comma-separated value (packages/contracts/src/common/index.ts, lines 57-85). */
module NameList {
  import opened Sequences

  // ---------------------------------------------------------------- trimming

  function TrimStart(space: char -> bool, s: string): string {
    if s != "" && space(s[0]) then TrimStart(space, s[1..]) else s
  }

  function TrimEnd(space: char -> bool, s: string): string {
    if s != "" && space(s[|s| - 1]) then TrimEnd(space, s[..|s| - 1]) else s
  }

  /** `trim`, over whatever counts as white space. */
  function Trim(space: char -> bool, s: string): string {
    TrimEnd(space, TrimStart(space, s))
  }

  predicate Tight(space: char -> bool, s: string) {
    s != "" ==> !space(s[0]) && !space(s[|s| - 1])
  }

  lemma {:induction false} TrimStartTight(space: char -> bool, s: string)
    ensures var t := TrimStart(space, s); t != "" ==> !space(t[0])
  {
    if s != "" && space(s[0]) {
      TrimStartTight(space, s[1..]);
    }
  }

  lemma {:induction false} TrimEndTight(space: char -> bool, s: string)
    requires s != "" ==> !space(s[0])
    ensures Tight(space, TrimEnd(space, s))
  {
    if s != "" && space(s[|s| - 1]) {
      TrimEndTight(space, s[..|s| - 1]);
    }
  }

  lemma {:induction false} TrimIsTight(space: char -> bool, s: string)
    ensures Tight(space, Trim(space, s))
  {
    TrimStartTight(space, s);
    TrimEndTight(space, TrimStart(space, s));
  }

  lemma {:induction false} TightStays(space: char -> bool, s: string)
    requires Tight(space, s)
    ensures Trim(space, s) == s
  {
  }

  /** Each name trimmed, the empty ones dropped. */
  function Clean(space: char -> bool, names: seq<string>): seq<string> {
    if names == [] then []
    else
      var n := |names| - 1;
      var last := Trim(space, names[n]);
      Clean(space, names[..n]) + (if last != "" then [last] else [])
  }

  lemma {:induction false} CleanTwice(space: char -> bool, names: seq<string>)
    ensures Clean(space, Clean(space, names)) == Clean(space, names)
  {
    hide Trim;
    if names != [] {
      var n := |names| - 1;
      CleanTwice(space, names[..n]);
      var rest, last := Clean(space, names[..n]), Trim(space, names[n]);
      if last != "" {
        TrimIsTight(space, names[n]);
        TightStays(space, last);
        assert (rest + [last])[..|rest|] == rest;
      } else {
        assert rest + [] == rest;
      }
    }
  }

  // ---------------------------------------------------------------- joining

  function DoubleBackslashes(s: string): string {
    if s == "" then "" else (if s[0] == '\\' then "\\\\" else [s[0]]) + DoubleBackslashes(s[1..])
  }

  function EscapeCommas(s: string): string {
    if s == "" then "" else (if s[0] == ',' then "\\," else [s[0]]) + EscapeCommas(s[1..])
  }

  /** `escapeListName`: two passes. */
  function Escape(name: string): string {
    EscapeCommas(DoubleBackslashes(name))
  }

  /** `joinNameList` */
  function JoinNameList(names: seq<string>): string {
    if names == [] then ""
    else if |names| == 1 then Escape(names[0])
    else Escape(names[0]) + "," + JoinNameList(names[1..])
  }

  lemma {:induction false} EscapeCommasConcat(a: string, b: string)
    ensures EscapeCommas(a + b) == EscapeCommas(a) + EscapeCommas(b)
  {
    if a == "" {
      assert a + b == b;
    } else {
      assert (a + b)[0] == a[0] && (a + b)[1..] == a[1..] + b;
      EscapeCommasConcat(a[1..], b);
    }
  }

  function EscapedChar(c: char): string {
    if c == '\\' then "\\\\" else if c == ',' then "\\," else [c]
  }

  /** The two passes escape each character once. */
  lemma {:induction false} EscapeChars(name: string)
    requires name != ""
    ensures Escape(name) == EscapedChar(name[0]) + Escape(name[1..])
  {
    var head := if name[0] == '\\' then "\\\\" else [name[0]];
    EscapeCommasConcat(head, DoubleBackslashes(name[1..]));
    if name[0] == '\\' {
      assert head[1..] == "\\" && head[1..][1..] == "";
      assert EscapeCommas("\\") == "\\";
      assert EscapeCommas(head) == "\\\\";
    } else {
      assert head[1..] == "";
      assert EscapeCommas(head) == EscapedChar(name[0]);
    }
  }

  // ---------------------------------------------------------------- splitting

  /** The names before trimming, given what was read of the current one. */
  function Split(raw: string, current: string): seq<string>
    decreases |raw|
  {
    if raw == "" then [current]
    else if raw[0] == '\\' && |raw| > 1 then Split(raw[2..], current + [raw[1]])
    else if raw[0] == ',' then [current] + Split(raw[1..], "")
    else Split(raw[1..], current + [raw[0]])
  }

  function NamesIn(space: char -> bool, raw: string): seq<string> {
    Clean(space, Split(raw, ""))
  }

  /** The pass over the characters, skipping the one a backslash keeps. */
  method CutNames(raw: string) returns (names: seq<string>)
    ensures names == Split(raw, "")
  {
    hide Split;
    names := [];
    var current := "";
    var index := 0;
    assert raw[0..] == raw;
    while index < |raw|
      invariant 0 <= index <= |raw|
      invariant Split(raw, "") == names + Split(raw[index..], current)
    {
      var c := raw[index];
      SplitStep(raw, index, current);
      if c == '\\' && index + 1 < |raw| {
        current := current + [raw[index + 1]];
        index := index + 2;
      } else if c == ',' {
        names := names + [current];
        current := "";
        index := index + 1;
      } else {
        current := current + [c];
        index := index + 1;
      }
    }
    assert raw[index..] == "";
    SplitEnd(current);
    names := names + [current];
  }

  lemma {:induction false} SplitEnd(current: string)
    ensures Split("", current) == [current]
  {
  }

  lemma {:induction false} SplitStep(raw: string, i: nat, current: string)
    requires i < |raw|
    ensures Split(raw[i..], current) ==
      if raw[i] == '\\' && i + 1 < |raw| then Split(raw[i + 2..], current + [raw[i + 1]])
      else if raw[i] == ',' then [current] + Split(raw[i + 1..], "")
      else Split(raw[i + 1..], current + [raw[i]])
  {
    var rest := raw[i..];
    assert rest[0] == raw[i] && rest[1..] == raw[i + 1..];
    if i + 1 < |raw| {
      assert rest[1] == raw[i + 1] && rest[2..] == raw[i + 2..];
    }
  }

  /** `splitNameList` */
  method SplitNameList(space: char -> bool, raw: string) returns (out: seq<string>)
    ensures out == NamesIn(space, raw)
  {
    hide Split, Trim;
    var names := CutNames(raw);
    out := [];
    for i := 0 to |names|
      invariant out == Clean(space, names[..i])
    {
      assert names[..i + 1][..i] == names[..i];
      var name := Trim(space, names[i]);
      if name != "" {
        out := out + [name];
      }
    }
    assert names[..|names|] == names;
  }

  lemma {:induction false} NothingEscaped()
    ensures Escape("") == ""
  {
  }

  /** An escaped character is read as itself. */
  lemma {:induction false} SplitChar(c: char, tail: string, current: string)
    ensures Split(EscapedChar(c) + tail, current) == Split(tail, current + [c])
  {
    var text := EscapedChar(c) + tail;
    if c == '\\' || c == ',' {
      assert text[0] == '\\' && text[1] == c && text[2..] == tail;
    } else {
      assert text[0] == c && text[1..] == tail;
    }
  }

  /** An escaped name is read back whole. */
  lemma {:induction false} SplitEscaped(name: string, rest: string, current: string)
    ensures Split(Escape(name) + rest, current) == Split(rest, current + name)
    decreases |name|
  {
    hide Split, EscapeCommas, DoubleBackslashes, EscapedChar;
    NothingEscaped();
    if name == "" {
      assert Escape(name) + rest == rest && current + name == current;
    } else {
      EscapeChars(name);
      var c, tail := name[0], Escape(name[1..]) + rest;
      assert Escape(name) + rest == EscapedChar(c) + tail;
      SplitChar(c, tail, current);
      SplitEscaped(name[1..], rest, current + [c]);
      assert current + [c] + name[1..] == current + name;
    }
  }

  lemma {:induction false} SplitJoined(names: seq<string>)
    requires names != []
    ensures Split(JoinNameList(names), "") == names
  {
    hide Escape;
    var name := names[0];
    if |names| == 1 {
      assert Escape(name) + "" == Escape(name) && "" + name == name;
      SplitEscaped(name, "", "");
      assert names == [name];
    } else {
      var rest := "," + JoinNameList(names[1..]);
      assert JoinNameList(names) == Escape(name) + rest;
      SplitEscaped(name, rest, "");
      assert rest[1..] == JoinNameList(names[1..]) && "" + name == name;
      SplitJoined(names[1..]);
      assert names == [name] + names[1..];
    }
  }

  /** Splitting a joined list gives the names, trimmed and without the empty ones, whatever characters they hold. */
  lemma {:induction false} RoundTrip(space: char -> bool, names: seq<string>)
    ensures NamesIn(space, JoinNameList(names)) == Clean(space, names)
  {
    hide JoinNameList, Trim;
    if names == [] {
      EmptyList(space);
    } else {
      SplitJoined(names);
    }
  }

  lemma {:induction false} EmptyList(space: char -> bool)
    ensures NamesIn(space, JoinNameList([])) == [] && Clean(space, []) == []
  {
    assert Trim(space, "") == "";
    assert [""][..0] == [];
  }

  /** Joining what was read and reading it again changes nothing, on any text at all. */
  lemma {:induction false} RereadIsStable(space: char -> bool, raw: string)
    ensures NamesIn(space, JoinNameList(NamesIn(space, raw))) == NamesIn(space, raw)
  {
    RoundTrip(space, NamesIn(space, raw));
    CleanTwice(space, Split(raw, ""));
  }

  // ---------------------------------------------------------------- plain lists

  /** `raw.split(',')` */
  function PlainSplit(raw: string): seq<string> {
    if raw == "" then [""]
    else
      var rest := PlainSplit(raw[1..]);
      if raw[0] == ',' then [""] + rest else if rest == [] then [[raw[0]]] else [[raw[0]] + rest[0]] + rest[1..]
  }

  lemma {:induction false} PlainAgrees(raw: string, current: string)
    requires '\\' !in raw
    ensures PlainSplit(raw) != []
    ensures Split(raw, current) == [current + PlainSplit(raw)[0]] + PlainSplit(raw)[1..]
    decreases |raw|
  {
    if raw == "" {
      assert current + "" == current;
    } else {
      assert raw[0] in raw && raw[0] != '\\';
      if raw[0] == ',' {
        PlainAgrees(raw[1..], "");
        var rest := PlainSplit(raw[1..]);
        assert "" + rest[0] == rest[0] && rest == [rest[0]] + rest[1..] && current + "" == current;
      } else {
        PlainAgrees(raw[1..], current + [raw[0]]);
        var rest := PlainSplit(raw[1..]);
        assert current + [raw[0]] + rest[0] == current + ([raw[0]] + rest[0]);
      }
    }
  }

  /** Text without a backslash is a plain comma list, so every link written before still reads the same. */
  lemma {:induction false} PlainListsReadAlike(space: char -> bool, raw: string)
    requires '\\' !in raw
    ensures NamesIn(space, raw) == Clean(space, PlainSplit(raw))
  {
    PlainAgrees(raw, "");
    var plain := PlainSplit(raw);
    assert "" + plain[0] == plain[0] && plain == [plain[0]] + plain[1..];
  }
}
