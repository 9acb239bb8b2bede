/**
 Greedy line breaking: `wrap` in lib/certificate-pdf.ts. The width of a text is an arbitrary
 function; the optimality theorem asks of it only that part of a line is never wider than the line.
 */
module LineWrap {

  /** The white space matched by `\s`, section 22.2.2.9 of ECMA-262. */
  predicate IsSpace(c: char) {
    || c == ' ' || '\t' <= c <= '\r' || c == '\U{00A0}' || c == '\U{1680}'
    || '\U{2000}' <= c <= '\U{200A}' || c == '\U{2028}' || c == '\U{2029}' || c == '\U{202F}'
    || c == '\U{205F}' || c == '\U{3000}' || c == '\U{FEFF}'
  }

  function TrimLeft(text: string): (rest: string)
    ensures |rest| <= |text|
    ensures rest != "" ==> !IsSpace(rest[0]) && rest[|rest| - 1] == text[|text| - 1]
    ensures rest == "" ==> forall c :: c in text ==> IsSpace(c)
  {
    if text != "" && IsSpace(text[0]) then TrimLeft(text[1..]) else text
  }

  /** `text.split(/\s+/)`: maximal runs of white space separate the words. */
  function SplitWords(text: string): (words: seq<string>)
    ensures words != []
    decreases |text|
  {
    if text == "" then [""]
    else if IsSpace(text[0]) then [""] + SplitWords(TrimLeft(text[1..]))
    else
      var rest := SplitWords(text[1..]);
      [[text[0]] + rest[0]] + rest[1..]
  }

  ghost predicate AllWords(words: seq<string>) {
    forall i :: 0 <= i < |words| ==> words[i] != ""
  }

  /** A text has no leading and no trailing white space. */
  predicate Trimmed(text: string) {
    text != "" && !IsSpace(text[0]) && !IsSpace(text[|text| - 1])
  }

  lemma {:induction false} TailWords(text: string)
    requires text != "" ==> !IsSpace(text[0])
    ensures AllWords(SplitWords(text)[1..]) <==> text == "" || !IsSpace(text[|text| - 1])
    ensures SplitWords(text)[0] == "" <==> text == ""
    decreases |text|
  {
    if |text| > 1 {
      var rest := SplitWords(text[1..]);
      assert SplitWords(text)[1..] == rest[1..];
      if IsSpace(text[1]) {
        var next := TrimLeft(text[1..][1..]);
        var tail := SplitWords(next);
        TailWords(next);
        assert rest[1..] == tail == [tail[0]] + tail[1..];
        assert next == "" && |text| > 2 ==> text[|text| - 1] in text[1..][1..];
      } else {
        TailWords(text[1..]);
      }
    }
  }

  /** Splitting yields only real words exactly for trimmed texts. */
  lemma SplitsIntoWords(text: string)
    ensures AllWords(SplitWords(text)) <==> Trimmed(text)
  {
    var words := SplitWords(text);
    assert words == [words[0]] + words[1..];
    if text == "" || IsSpace(text[0]) {
      assert words[0] == "";
    } else {
      TailWords(text);
    }
  }

  /** The words of a line with single spaces between them. */
  function Join(words: seq<string>): string {
    if |words| == 0 then ""
    else if |words| == 1 then words[0]
    else Join(words[..|words| - 1]) + " " + words[|words| - 1]
  }

  function Flatten(lines: seq<seq<string>>): seq<string> {
    if lines == [] then [] else lines[0] + Flatten(lines[1..])
  }

  function JoinAll(lines: seq<seq<string>>): (texts: seq<string>)
    ensures |texts| == |lines|
    ensures forall i :: 0 <= i < |lines| ==> texts[i] == Join(lines[i])
  {
    seq(|lines|, i requires 0 <= i < |lines| => Join(lines[i]))
  }

  predicate Fits(line: seq<string>, width: string -> real, maxWidth: real) {
    width(Join(line)) <= maxWidth
  }

  /** A division of `words` into non-empty lines, each of which fits or is a single word. */
  ghost predicate Division(lines: seq<seq<string>>, words: seq<string>, width: string -> real, maxWidth: real) {
    && Flatten(lines) == words
    && forall i :: 0 <= i < |lines| ==> |lines[i]| == 1 || (lines[i] != [] && Fits(lines[i], width, maxWidth))
  }

  /** A contiguous part of a line is never wider than the line. */
  ghost predicate Monotone(width: string -> real) {
    forall line: seq<string>, i: nat, j: nat ::
      i <= j <= |line| ==> width(Join(line[i..j])) <= width(Join(line))
  }

  /**
   `lines` are the joined lines of a division of `words`, joining them gives back the words in
   order, and no division of the words has fewer lines.
   */
  ghost predicate ShortestWrapping(lines: seq<string>, words: seq<string>, width: string -> real, maxWidth: real) {
    && Join(lines) == Join(words)
    && (exists division :: Division(division, words, width, maxWidth) && lines == JoinAll(division))
    && (forall other :: Division(other, words, width, maxWidth) ==> |lines| <= |other|)
  }

  /** `wrap` after its loop has gathered `current` and still has `words` to place. */
  function WrapFrom(current: string, words: seq<string>, width: string -> real, maxWidth: real): seq<string>
    decreases |words|
  {
    if words == [] then (if current != "" then [current] else [])
    else
      var candidate := if current != "" then current + " " + words[0] else words[0];
      if width(candidate) > maxWidth && current != ""
      then [current] + WrapFrom(words[0], words[1..], width, maxWidth)
      else WrapFrom(candidate, words[1..], width, maxWidth)
  }

  method Wrap(text: string, width: string -> real, maxWidth: real) returns (lines: seq<string>)
    ensures lines == WrapFrom("", SplitWords(text), width, maxWidth)
    ensures Trimmed(text) && Monotone(width) ==> ShortestWrapping(lines, SplitWords(text), width, maxWidth)
  {
    var words := SplitWords(text);
    lines := [];
    var current := "";
    for i := 0 to |words|
      invariant lines + WrapFrom(current, words[i..], width, maxWidth)
             == WrapFrom("", words, width, maxWidth)
    {
      var word := words[i];
      assert words[i..][0] == word && words[i..][1..] == words[i + 1..];
      var candidate := if current != "" then current + " " + word else word;
      if width(candidate) > maxWidth && current != "" {
        assert lines + ([current] + WrapFrom(word, words[i + 1..], width, maxWidth))
            == lines + [current] + WrapFrom(word, words[i + 1..], width, maxWidth);
        lines := lines + [current];
        current := word;
      } else {
        current := candidate;
      }
    }
    if current != "" {
      lines := lines + [current];
    }
    TrimmedIsShortest(text, width, maxWidth);
  }

  /** The greedy division: `wrap` on lists of words instead of joined texts. */
  function Greedy(current: seq<string>, words: seq<string>, width: string -> real, maxWidth: real): seq<seq<string>>
    decreases |words|
  {
    if words == [] then (if current != [] then [current] else [])
    else if current != [] && !Fits(current + [words[0]], width, maxWidth)
    then [current] + Greedy([words[0]], words[1..], width, maxWidth)
    else Greedy(current + [words[0]], words[1..], width, maxWidth)
  }

  lemma JoinIsText(words: seq<string>)
    requires AllWords(words) && words != []
    ensures Join(words) != ""
  {
  }

  lemma JoinOneMore(line: seq<string>, word: string)
    requires AllWords(line) && word != ""
    ensures Join(line + [word]) == if Join(line) != "" then Join(line) + " " + word else word
    ensures AllWords(line + [word]) && (Join(line) != "" <==> line != [])
  {
    assert (line + [word])[..|line|] == line;
    if line != [] {
      JoinIsText(line);
    }
  }

  lemma JoinAllCons(line: seq<string>, rest: seq<seq<string>>)
    ensures JoinAll([line] + rest) == [Join(line)] + JoinAll(rest)
  {
  }

  lemma {:induction false} WrapIsGreedy(current: seq<string>, words: seq<string>, width: string -> real, maxWidth: real)
    requires AllWords(current) && AllWords(words)
    ensures WrapFrom(Join(current), words, width, maxWidth) == JoinAll(Greedy(current, words, width, maxWidth))
    decreases |words|
  {
    if words == [] {
      if current != [] {
        JoinIsText(current);
      }
    } else {
      var word := words[0];
      JoinOneMore(current, word);
      if current != [] && !Fits(current + [word], width, maxWidth) {
        WrapIsGreedy([word], words[1..], width, maxWidth);
        JoinAllCons(current, Greedy([word], words[1..], width, maxWidth));
      } else {
        WrapIsGreedy(current + [word], words[1..], width, maxWidth);
      }
    }
  }

  lemma {:induction false} GreedyDivides(current: seq<string>, words: seq<string>,
      width: string -> real, maxWidth: real)
    requires |current| <= 1 || Fits(current, width, maxWidth)
    ensures Division(Greedy(current, words, width, maxWidth), current + words, width, maxWidth)
    decreases |words|
  {
    if words == [] {
      assert current != [] ==> Flatten([current]) == current + Flatten([]);
    } else {
      var line := current + [words[0]];
      assert current + words == line + words[1..];
      if current != [] && !Fits(line, width, maxWidth) {
        GreedyDivides([words[0]], words[1..], width, maxWidth);
        assert [words[0]] + words[1..] == words;
      } else {
        GreedyDivides(line, words[1..], width, maxWidth);
      }
    }
  }

  lemma {:induction false} JoinAppend(a: seq<string>, b: seq<string>)
    requires a != [] && b != []
    ensures Join(a + b) == Join(a) + " " + Join(b)
    decreases |b|
  {
    assert (a + b)[..|a + b| - 1] == a + b[..|b| - 1];
    if |b| == 1 {
      assert a + b[..0] == a;
    } else {
      JoinAppend(a, b[..|b| - 1]);
    }
  }

  /** Joining the lines of a division gives back the joined words. */
  lemma {:induction false} JoinOfLines(lines: seq<seq<string>>, words: seq<string>,
      width: string -> real, maxWidth: real)
    requires Division(lines, words, width, maxWidth)
    ensures Join(JoinAll(lines)) == Join(words)
    decreases |lines|
  {
    if |lines| == 1 {
      assert words == lines[0] + Flatten(lines[1..]);
      assert words == lines[0];
    } else if |lines| > 1 {
      var rest := Flatten(lines[1..]);
      assert Flatten(lines[1..]) == lines[1] + Flatten(lines[1..][1..]);
      JoinOfLines(lines[1..], rest, width, maxWidth);
      JoinAppend(lines[0], rest);
      assert JoinAll(lines) == [Join(lines[0])] + JoinAll(lines[1..]);
      JoinAppend([Join(lines[0])], JoinAll(lines[1..]));
    }
  }

  ghost predicate Suffix(part: seq<string>, line: seq<string>) {
    |part| <= |line| && part == line[|line| - |part|..]
  }

  lemma FitsWithin(current: seq<string>, begun: seq<string>, word: string, line: seq<string>,
      width: string -> real, maxWidth: real)
    requires Monotone(width) && Fits(line, width, maxWidth)
    requires Suffix(current, begun) && begun + [word] <= line
    ensures Fits(current + [word], width, maxWidth)
  {
    var from, to := |begun| - |current|, |begun| + 1;
    assert line[from..to] == (begun + [word])[from..to] == current + [word];
    assert width(Join(line[from..to])) <= width(Join(line));
  }

  /** The first line of `other` has `begun` behind it and `words` are still to come. */
  ghost predicate Underway(other: seq<seq<string>>, begun: seq<string>, words: seq<string>,
      width: string -> real, maxWidth: real)
  {
    Division(other, begun + words, width, maxWidth) && other != [] && begun != [] && begun <= other[0]
  }

  /** Placing one word in a division continues its first line or starts its second one. */
  lemma PlaceWord(other: seq<seq<string>>, begun: seq<string>, words: seq<string>,
      width: string -> real, maxWidth: real)
    requires Underway(other, begun, words, width, maxWidth) && words != []
    ensures if |begun| < |other[0]|
            then Underway(other, begun + [words[0]], words[1..], width, maxWidth)
            else |other| > 1 && Underway(other[1..], [words[0]], words[1..], width, maxWidth)
  {
    var line, word, rest := other[0], words[0], words[1..];
    assert Flatten(other) == line + Flatten(other[1..]);
    assert words == [word] + rest;
    if |begun| < |line| {
      assert (begun + words)[|begun|] == line[|begun|];
      assert begun + [word] + rest == begun + words;
    } else {
      assert (line + Flatten(other[1..]))[|line|..] == words;
      NextLine(other[1..], words, width, maxWidth);
    }
  }

  /**
   Greedy stays ahead. `other` is the rest of a division, underway in its first line; greedy's open
   line is `current`. If greedy is level with the division and its open line is part of the
   division's, it needs no more lines; if it is a line ahead, at most one more.
   */
  lemma {:induction false} StaysAhead(current: seq<string>, words: seq<string>,
      begun: seq<string>, other: seq<seq<string>>, width: string -> real, maxWidth: real)
    requires Monotone(width) && current != []
    requires Underway(other, begun, words, width, maxWidth)
    ensures |Greedy(current, words, width, maxWidth)| <= |other| + 1
    ensures Suffix(current, begun) ==> |Greedy(current, words, width, maxWidth)| <= |other|
    decreases |words|
  {
    if words != [] {
      var word, rest := words[0], words[1..];
      PlaceWord(other, begun, words, width, maxWidth);
      if |begun| < |other[0]| {
        var longer := begun + [word];
        StaysAhead(current + [word], rest, longer, other, width, maxWidth);
        StaysAhead([word], rest, longer, other, width, maxWidth);
        if Suffix(current, begun) {
          FitsWithin(current, begun, word, other[0], width, maxWidth);
        }
      } else {
        StaysAhead(current + [word], rest, [word], other[1..], width, maxWidth);
        StaysAhead([word], rest, [word], other[1..], width, maxWidth);
      }
    }
  }

  lemma NextLine(lines: seq<seq<string>>, words: seq<string>, width: string -> real, maxWidth: real)
    requires Flatten(lines) == words && words != []
    requires forall i :: 0 <= i < |lines| ==> |lines[i]| == 1 || (lines[i] != [] && Fits(lines[i], width, maxWidth))
    ensures Division(lines, words, width, maxWidth)
    ensures lines != [] && [words[0]] <= lines[0]
  {
  }

  /** No division of the words into lines that fit has fewer lines than the greedy one. */
  lemma GreedyIsShortest(words: seq<string>, other: seq<seq<string>>, width: string -> real, maxWidth: real)
    requires Monotone(width) && Division(other, words, width, maxWidth)
    ensures |Greedy([], words, width, maxWidth)| <= |other|
  {
    if words != [] {
      NextLine(other, words, width, maxWidth);
      assert [words[0]] + words[1..] == words;
      StaysAhead([words[0]], words[1..], [words[0]], other, width, maxWidth);
      assert [] + [words[0]] == [words[0]];
    }
  }

  lemma WrapIsShortest(words: seq<string>, width: string -> real, maxWidth: real)
    requires AllWords(words) && Monotone(width)
    ensures ShortestWrapping(WrapFrom("", words, width, maxWidth), words, width, maxWidth)
  {
    var division := Greedy([], words, width, maxWidth);
    WrapIsGreedy([], words, width, maxWidth);
    GreedyDivides([], words, width, maxWidth);
    assert [] + words == words;
    JoinOfLines(division, words, width, maxWidth);
    forall other | Division(other, words, width, maxWidth)
      ensures |division| <= |other|
    {
      GreedyIsShortest(words, other, width, maxWidth);
    }
  }

  lemma TrimmedIsShortest(text: string, width: string -> real, maxWidth: real)
    ensures Trimmed(text) && Monotone(width) ==>
              ShortestWrapping(WrapFrom("", SplitWords(text), width, maxWidth), SplitWords(text), width, maxWidth)
  {
    if Trimmed(text) && Monotone(width) {
      SplitsIntoWords(text);
      WrapIsShortest(SplitWords(text), width, maxWidth);
    }
  }

  // ---------- White space around the text ----------

  ghost predicate Blank(text: string) {
    forall c :: c in text ==> IsSpace(c)
  }

  /** Equal but for at most one blank at the end of the last line. */
  ghost predicate UpToTrailingBlank(lines: seq<string>, others: seq<string>) {
    || lines == others
    || (lines != [] && |lines| == |others| && lines[..|lines| - 1] == others[..|lines| - 1]
        && lines[|lines| - 1] == others[|lines| - 1] + " ")
  }

  lemma {:induction false} TrimLeftSkips(blank: string, text: string)
    requires Blank(blank) && (text == "" || !IsSpace(text[0]))
    ensures TrimLeft(blank + text) == text
  {
    if blank == "" {
      assert blank + text == text;
    } else {
      assert (blank + text)[1..] == blank[1..] + text;
      TrimLeftSkips(blank[1..], text);
    }
  }

  lemma SplitLetter(c: char, text: string)
    requires !IsSpace(c)
    ensures SplitWords([c] + text) == [[c] + SplitWords(text)[0]] + SplitWords(text)[1..]
  {
    assert ([c] + text)[1..] == text;
  }

  lemma SplitBlank(c: char, text: string)
    requires IsSpace(c)
    ensures SplitWords([c] + text) == [""] + SplitWords(TrimLeft(text))
  {
    assert ([c] + text)[1..] == text;
  }

  lemma SplitOnlyBlank(blank: string)
    requires Blank(blank) && blank != ""
    ensures SplitWords(blank) == ["", ""]
  {
    TrimLeftSkips(blank[1..], "");
    assert blank[1..] + "" == blank[1..];
  }

  lemma SplitTrailingLetter(c: char, rest: string, blank: string)
    requires !IsSpace(c) && SplitWords(rest + blank) == SplitWords(rest) + [""]
    ensures SplitWords([c] + (rest + blank)) == SplitWords([c] + rest) + [""]
  {
    SplitLetter(c, rest);
    SplitLetter(c, rest + blank);
    var words := SplitWords(rest);
    assert (words + [""])[1..] == words[1..] + [""];
  }

  /** `words` and `more` are the words of what is left of `rest` and `rest + blank` after their white space. */
  lemma SplitTrailingBlank(c: char, rest: string, blank: string, words: seq<string>, more: seq<string>)
    requires IsSpace(c) && SplitWords(TrimLeft(rest)) == words && SplitWords(TrimLeft(rest + blank)) == more
    requires more == words + [""]
    ensures SplitWords([c] + (rest + blank)) == SplitWords([c] + rest) + [""]
  {
    SplitBlank(c, rest);
    SplitBlank(c, rest + blank);
    assert [""] + more == ([""] + words) + [""];
  }

  predicate EndsInLetter(text: string) {
    text != "" && !IsSpace(text[|text| - 1])
  }

  lemma {:induction false} SplitTrailing(text: string, blank: string)
    requires Blank(blank) && blank != "" && EndsInLetter(text)
    ensures SplitWords(text + blank) == SplitWords(text) + [""]
    decreases |text|, 0
  {
    assert text == [text[0]] + text[1..] && text + blank == [text[0]] + (text[1..] + blank);
    if IsSpace(text[0]) {
      SplitAfterBlank(text[0], text[1..], blank);
    } else if text[1..] == "" {
      assert text[1..] + blank == blank;
      SplitOnlyBlank(blank);
      SplitTrailingLetter(text[0], text[1..], blank);
    } else {
      SplitTrailing(text[1..], blank);
      SplitTrailingLetter(text[0], text[1..], blank);
    }
  }

  lemma {:induction false} SplitAfterBlank(c: char, rest: string, blank: string)
    requires Blank(blank) && blank != "" && IsSpace(c) && EndsInLetter(rest)
    ensures SplitWords([c] + (rest + blank)) == SplitWords([c] + rest) + [""]
    decreases |rest|, 1
  {
    TrimLeftBefore(rest, blank);
    SplitTrailing(TrimLeft(rest), blank);
    var words := SplitWords(TrimLeft(rest));
    SplitTrailingBlank(c, rest, blank, words, words + [""]);
  }

  lemma {:induction false} TrimLeftBefore(text: string, blank: string)
    requires EndsInLetter(text)
    ensures TrimLeft(text + blank) == TrimLeft(text) + blank && TrimLeft(text) != ""
  {
    if IsSpace(text[0]) {
      assert (text + blank)[1..] == text[1..] + blank;
      TrimLeftBefore(text[1..], blank);
    }
  }

  lemma {:induction false} TrailingEmptyWord(current: string, words: seq<string>, width: string -> real, maxWidth: real)
    ensures UpToTrailingBlank(WrapFrom(current, words + [""], width, maxWidth),
                              WrapFrom(current, words, width, maxWidth))
    decreases |words|
  {
    if words != [] {
      var more := words + [""];
      assert more[0] == words[0] && more[1..] == words[1..] + [""];
      var candidate := if current != "" then current + " " + words[0] else words[0];
      if width(candidate) > maxWidth && current != "" {
        TrailingEmptyWord(words[0], words[1..], width, maxWidth);
        var a := WrapFrom(words[0], words[1..] + [""], width, maxWidth);
        var b := WrapFrom(words[0], words[1..], width, maxWidth);
        assert a != b ==> ([current] + a)[..|a|] == [current] + a[..|a| - 1];
        assert a != b ==> ([current] + b)[..|a|] == [current] + b[..|a| - 1];
      } else {
        TrailingEmptyWord(candidate, words[1..], width, maxWidth);
      }
    }
  }

  /**
   White space around a text is dropped, but for at most one blank that may end the last line; a text
   of white space only has no lines. Every text is of one of these two forms.
   */
  lemma OuterSpaceDropped(before: string, text: string, after: string, width: string -> real, maxWidth: real)
    requires Blank(before) && Blank(after) && (text == "" || Trimmed(text))
    ensures UpToTrailingBlank(WrapFrom("", SplitWords(before + text + after), width, maxWidth),
                              WrapFrom("", SplitWords(text), width, maxWidth))
    ensures text == "" ==> WrapFrom("", SplitWords(before + text + after), width, maxWidth) == []
  {
    var tail := text + after;
    var all := before + text + after;
    assert all == before + tail;
    if text == "" {
      BlankHasNoLines(all, width, maxWidth);
      BlankHasNoLines(text, width, maxWidth);
    } else {
      if before != "" {
        assert all[1..] == before[1..] + tail;
        TrimLeftSkips(before[1..], tail);
        assert SplitWords(all) == [""] + SplitWords(tail);
      } else {
        assert all == tail;
      }
      assert WrapFrom("", SplitWords(all), width, maxWidth) == WrapFrom("", SplitWords(tail), width, maxWidth);
      if after != "" {
        SplitTrailing(text, after);
        TrailingEmptyWord("", SplitWords(text), width, maxWidth);
      } else {
        assert tail == text;
      }
    }
  }

  lemma BlankHasNoLines(text: string, width: string -> real, maxWidth: real)
    requires Blank(text)
    ensures WrapFrom("", SplitWords(text), width, maxWidth) == []
  {
    if text != "" {
      assert text == text[..1] + text[1..];
      assert forall c :: c in text[1..] ==> c in text;
      TrimLeftSkips(text[1..], "");
      assert text[1..] + "" == text[1..];
      assert SplitWords(text) == ["", ""];
      assert ["", ""][1..] == [""] && [""][1..] == [];
      assert WrapFrom("", [""], width, maxWidth) == WrapFrom("", [], width, maxWidth);
    } else {
      assert [""][1..] == [];
    }
  }

  // ---------- What separates words ----------

  /** The white space of section 22.2.2.9 of ECMA-262, one by one. */
  const WHITE_SPACE: string :=
    "\t\n\U{000B}\U{000C}\r \U{00A0}\U{1680}\U{2000}\U{2001}\U{2002}\U{2003}\U{2004}\U{2005}\U{2006}"
    + "\U{2007}\U{2008}\U{2009}\U{200A}\U{2028}\U{2029}\U{202F}\U{205F}\U{3000}\U{FEFF}"

  lemma IsWhiteSpace(c: char)
    ensures IsSpace(c) <==> c in WHITE_SPACE
  {
  }

  /** A word: some text without white space. */
  ghost predicate Word(text: string) {
    text != "" && forall c :: c in text ==> c !in WHITE_SPACE
  }

  /** Some white space. */
  ghost predicate Gap(text: string) {
    text != "" && forall c :: c in text ==> c in WHITE_SPACE
  }

  lemma {:induction false} SplitWord(word: string, tail: string)
    requires forall c :: c in word ==> !IsSpace(c)
    ensures SplitWords(word + tail) == [word + SplitWords(tail)[0]] + SplitWords(tail)[1..]
  {
    if word == "" {
      var words := SplitWords(tail);
      assert word + tail == tail && word + words[0] == words[0] && words == [words[0]] + words[1..];
    } else {
      SplitWord(word[1..], tail);
      assert word == [word[0]] + word[1..] && word + tail == [word[0]] + (word[1..] + tail);
      SplitLetter(word[0], word[1..] + tail);
      var rest := SplitWords(word[1..] + tail);
      assert [word[0]] + (word[1..] + SplitWords(tail)[0]) == word + SplitWords(tail)[0];
    }
  }

  lemma SplitGap(gap: string, rest: string)
    requires Blank(gap) && gap != "" && rest != "" && !IsSpace(rest[0])
    ensures SplitWords(gap + rest) == [""] + SplitWords(rest)
  {
    assert gap == [gap[0]] + gap[1..] && gap + rest == [gap[0]] + (gap[1..] + rest);
    SplitBlank(gap[0], gap[1..] + rest);
    TrimLeftSkips(gap[1..], rest);
  }

  lemma GapIsBlank(text: string)
    ensures Gap(text) <==> text != "" && Blank(text)
    ensures Word(text) <==> text != "" && forall c :: c in text ==> !IsSpace(c)
  {
    forall c: char
      ensures IsSpace(c) <==> c in WHITE_SPACE
    {
      IsWhiteSpace(c);
    }
  }

  /** Any white space between a word and the rest of a text separates them and is dropped. */
  lemma SplitAtGap(word: string, gap: string, rest: string)
    requires Word(word) && Gap(gap) && rest != "" && rest[0] !in WHITE_SPACE
    ensures SplitWords(word + gap + rest) == [word] + SplitWords(rest)
  {
    GapIsBlank(word);
    GapIsBlank(gap);
    IsWhiteSpace(rest[0]);
    SplitGap(gap, rest);
    SplitWord(word, gap + rest);
    assert word + gap + rest == word + (gap + rest);
    assert ([""] + SplitWords(rest))[1..] == SplitWords(rest) && word + "" == word;
  }

  /** Blanks, tabs, line breaks of both kinds and no-break spaces are such white space. */
  lemma SplitAtLineBreak(word: string, rest: string)
    requires Word(word) && rest != "" && rest[0] !in WHITE_SPACE
    ensures SplitWords(word + " " + rest) == SplitWords(word + "\t" + rest) == SplitWords(word + "\n" + rest)
         == SplitWords(word + "\r\n" + rest) == SplitWords(word + "\U{00A0}" + rest) == [word] + SplitWords(rest)
  {
    SplitAtGap(word, " ", rest);
    SplitAtGap(word, "\t", rest);
    SplitAtGap(word, "\n", rest);
    SplitAtGap(word, "\r\n", rest);
    SplitAtGap(word, "\U{00A0}", rest);
  }

  lemma SplitOneWord(word: string)
    requires Word(word)
    ensures SplitWords(word) == [word]
  {
    GapIsBlank(word);
    SplitWord(word, "");
    assert word + "" == word;
  }

  /** Words joined by single blanks split into these words. */
  lemma {:induction false} SplitJoinedWords(words: seq<string>)
    requires words != [] && forall i :: 0 <= i < |words| ==> Word(words[i])
    ensures SplitWords(Join(words)) == words
  {
    if |words| == 1 {
      SplitOneWord(words[0]);
    } else {
      var rest := words[1..];
      SplitJoinedWords(rest);
      assert words == [words[0]] + rest;
      JoinAppend([words[0]], rest);
      JoinStarts(rest);
      SplitAtGap(words[0], " ", Join(rest));
    }
  }

  lemma {:induction false} JoinStarts(words: seq<string>)
    requires words != [] && words[0] != ""
    ensures Join(words) != "" && Join(words)[0] == words[0][0]
  {
    if |words| > 1 {
      JoinStarts(words[..|words| - 1]);
    }
  }

  lemma FittingIsOneLine(lines: seq<string>, words: seq<string>, width: string -> real, maxWidth: real)
    requires AllWords(words) && words != [] && ShortestWrapping(lines, words, width, maxWidth)
    requires width(Join(words)) <= maxWidth
    ensures lines == [Join(words)]
  {
    assert Flatten([words]) == words + Flatten([]) == words;
    assert Division([words], words, width, maxWidth);
    JoinIsText(words);
    assert |lines| <= 1 && lines != [];
    assert lines == [lines[0]] && Join(lines) == lines[0];
  }

  lemma OneLineIsFitting(words: seq<string>, width: string -> real, maxWidth: real)
    requires |words| >= 2 && ShortestWrapping([Join(words)], words, width, maxWidth)
    ensures width(Join(words)) <= maxWidth
  {
    var division :| Division(division, words, width, maxWidth) && [Join(words)] == JoinAll(division);
    assert division == [division[0]] && Flatten(division) == division[0] + Flatten(division[1..]);
    assert division[0] == words;
  }

  /** A text of two or more words stays on one line exactly if it is no wider than the line. */
  lemma OneLineIff(words: seq<string>, width: string -> real, maxWidth: real)
    requires |words| >= 2 && (forall i :: 0 <= i < |words| ==> Word(words[i])) && Monotone(width)
    ensures WrapFrom("", SplitWords(Join(words)), width, maxWidth) == [Join(words)] <==> width(Join(words)) <= maxWidth
  {
    SplitJoinedWords(words);
    WrapIsShortest(words, width, maxWidth);
    var lines := WrapFrom("", words, width, maxWidth);
    if width(Join(words)) <= maxWidth {
      FittingIsOneLine(lines, words, width, maxWidth);
    } else if lines == [Join(words)] {
      OneLineIsFitting(words, width, maxWidth);
    }
  }

  lemma {:induction false} JoinWithin(line: seq<string>, n: nat)
    requires n <= |line|
    ensures |Join(line[..n])| <= |Join(line)|
  {
    if n < |line| {
      assert line[..|line| - 1][..n] == line[..n];
      JoinWithin(line[..|line| - 1], n);
    } else {
      assert line[..n] == line;
    }
  }

  lemma {:induction false} JoinFrom(line: seq<string>, i: nat)
    requires i <= |line|
    ensures |Join(line[i..])| <= |Join(line)|
  {
    if 0 < i < |line| {
      assert line == line[..i] + line[i..];
      JoinAppend(line[..i], line[i..]);
    } else if i == 0 {
      assert line[0..] == line;
    }
  }

  /** There are such widths: the number of characters is one. */
  lemma LengthIsMonotone()
    ensures Monotone((text: string) => |text| as real)
  {
    forall line: seq<string>, i: nat, j: nat | i <= j <= |line|
      ensures |Join(line[i..j])| <= |Join(line)|
    {
      assert line[i..j] == line[..j][i..];
      JoinFrom(line[..j], i);
      JoinWithin(line, j);
    }
  }
}
