/** Python's string helpers, as far as the program uses them. Line breaks are
    `\n` only. */
module Text {

  predicate IsSpace(c: char) {
    c == ' ' || c == '\t' || c == '\n' || c == '\r' || c == '\U{b}' || c == '\U{c}'
  }

  /** `s.rstrip()` */
  function RStrip(s: string): (r: string)
    ensures r <= s
    ensures r == "" || !IsSpace(r[|r| - 1])
  {
    if s != "" && IsSpace(s[|s| - 1]) then RStrip(s[..|s| - 1]) else s
  }

  /** `s.lstrip()` */
  function LStrip(s: string): (r: string)
    ensures |r| <= |s|
    ensures r == "" || !IsSpace(r[0])
  {
    if s != "" && IsSpace(s[0]) then LStrip(s[1..]) else s
  }

  /** `s.strip()` */
  function Strip(s: string): (r: string)
  {
    RStrip(LStrip(s))
  }

  predicate AllSpace(s: string) {
    forall c :: c in s ==> IsSpace(c)
  }

  function ExtendLast(lines: seq<string>, c: char): (longer: seq<string>)
    requires lines != []
    ensures |longer| == |lines|
  {
    lines[..|lines| - 1] + [lines[|lines| - 1] + [c]]
  }

  /** `s.split("\n")` */
  function Split(s: string): (lines: seq<string>)
    ensures lines != []
  {
    if s == "" then [""]
    else
      var before, c := Split(s[..|s| - 1]), s[|s| - 1];
      if c == '\n' then before + [""] else ExtendLast(before, c)
  }

  /** `s.splitlines()` */
  function SplitLines(s: string): (lines: seq<string>) {
    if s == "" then []
    else if s[|s| - 1] == '\n' then Split(s[..|s| - 1])
    else Split(s)
  }

  /** `"\n".join(lines)` */
  function Join(lines: seq<string>): (s: string) {
    if lines == [] then ""
    else if |lines| == 1 then lines[0]
    else Join(lines[..|lines| - 1]) + "\n" + lines[|lines| - 1]
  }

  predicate OneLine(s: string) {
    '\n' !in s
  }

  predicate AllOneLine(lines: seq<string>) {
    forall line :: line in lines ==> OneLine(line)
  }

  // ---- Stripping ----

  lemma RStripSpace(s: string, c: char)
    requires IsSpace(c)
    ensures RStrip(s + [c]) == RStrip(s)
  {
    assert (s + [c])[..|s|] == s;
  }

  lemma {:induction false} RStripAppendSpaces(s: string, w: string)
    requires AllSpace(w)
    ensures RStrip(s + w) == RStrip(s)
    decreases |w|
  {
    hide RStrip;
    if w == "" {
      assert s + w == s;
    } else {
      var w' := w[..|w| - 1];
      RStripAppendSpaces(s, w');
      RStripSpace(s + w', w[|w| - 1]);
      assert s + w == s + w' + [w[|w| - 1]];
    }
  }

  /** What `rstrip` cuts off is blank. */
  lemma {:induction false} RStripRest(s: string)
    ensures AllSpace(s[|RStrip(s)|..]) && s == RStrip(s) + s[|RStrip(s)|..]
    ensures RStrip(RStrip(s)) == RStrip(s)
  {
    if s != "" && IsSpace(s[|s| - 1]) {
      var t := s[..|s| - 1];
      RStripRest(t);
      assert s[|RStrip(t)|..] == t[|RStrip(t)|..] + [s[|s| - 1]];
    }
  }

  /** Stripping the tail first makes no difference. */
  lemma RStripTail(u: string, v: string)
    ensures RStrip(u + RStrip(v)) == RStrip(u + v)
  {
    hide RStrip, AllSpace;
    RStripRest(v);
    var r, w := RStrip(v), v[|RStrip(v)|..];
    RStripAppendSpaces(u + r, w);
    assert u + v == u + r + w by {
      assert v == r + w;
    }
  }

  /** A tail that is not blank protects what is before it. */
  lemma {:induction false} RStripKeepsFront(u: string, v: string)
    requires RStrip(v) != ""
    ensures RStrip(u + v) == u + RStrip(v)
    decreases |v|
  {
    var c := v[|v| - 1];
    if IsSpace(c) {
      var v' := v[..|v| - 1];
      RStripKeepsFront(u, v');
      assert (u + v)[..|u + v| - 1] == u + v';
    }
  }

  lemma {:induction false} LStripRest(s: string)
    ensures |LStrip(s)| <= |s| && AllSpace(s[..|s| - |LStrip(s)|]) && s == s[..|s| - |LStrip(s)|] + LStrip(s)
  {
    if s != "" && IsSpace(s[0]) {
      LStripRest(s[1..]);
      var n := |s| - |LStrip(s)|;
      assert s[..n] == [s[0]] + s[1..][..n - 1];
    }
  }

  /** Only blanks are cut off, and none is left at either end. */
  lemma StripIsMiddle(s: string) returns (front: string, rest: string)
    ensures s == front + Strip(s) + rest && AllSpace(front) && AllSpace(rest)
    ensures Strip(s) != "" ==> !IsSpace(Strip(s)[0]) && !IsSpace(Strip(s)[|Strip(s)| - 1])
  {
    hide LStrip, RStrip;
    var left := LStrip(s);
    LStripRest(s);
    RStripRest(left);
    front, rest := s[..|s| - |left|], left[|RStrip(left)|..];
    assert RStrip(left) != "" ==> RStrip(left)[0] == left[0];
  }

  lemma BlankIff(s: string)
    ensures Strip(s) == "" <==> AllSpace(s)
  {
    hide Strip;
    var front, rest := StripIsMiddle(s);
    if Strip(s) != "" {
      assert s[|front|] == Strip(s)[0] && s[|front|] in s;
    } else {
      assert s == front + rest;
    }
  }

  lemma {:induction false} LStripSpaceEnd(s: string, c: char)
    requires IsSpace(c)
    ensures LStrip(s + [c]) == if LStrip(s) == "" then "" else LStrip(s) + [c]
    decreases |s|
  {
    if s == "" {
      assert LStrip([c]) == LStrip([c][1..]);
    } else if IsSpace(s[0]) {
      LStripSpaceEnd(s[1..], c);
      assert (s + [c])[1..] == s[1..] + [c];
    }
  }

  lemma StripSpaceEnd(s: string, c: char)
    requires IsSpace(c)
    ensures Strip(s + [c]) == Strip(s)
  {
    LStripSpaceEnd(s, c);
    RStripSpace(LStrip(s), c);
  }

  /** A line that starts and ends with visible characters is its own strip. */
  lemma StripOfVisible(s: string)
    requires s != "" && !IsSpace(s[0]) && !IsSpace(s[|s| - 1])
    ensures Strip(s) == s
  {
  }

  // ---- Lines ----

  lemma {:induction false} SplitIsOneLine(s: string)
    ensures AllOneLine(Split(s))
  {
    if s != "" {
      var before := Split(s[..|s| - 1]);
      SplitIsOneLine(s[..|s| - 1]);
      assert before[|before| - 1] in before;
      assert forall i :: 0 <= i < |before| - 1 ==> before[i] in before;
    }
  }

  lemma SplitSnoc(s: string, c: char)
    ensures Split(s + [c]) == if c == '\n' then Split(s) + [""] else ExtendLast(Split(s), c)
  {
    assert (s + [c])[..|s|] == s;
  }

  lemma ExtendLastBehind(front: seq<string>, lines: seq<string>, c: char)
    requires lines != []
    ensures front + ExtendLast(lines, c) == ExtendLast(front + lines, c)
  {
  }

  lemma SplitLinesIsOneLine(s: string)
    ensures AllOneLine(SplitLines(s))
  {
    if s != "" {
      SplitIsOneLine(s);
      SplitIsOneLine(s[..|s| - 1]);
    }
  }

  lemma {:induction false} SplitSeparated(s: string, t: string)
    ensures Split(s + "\n" + t) == Split(s) + Split(t)
    decreases |t|
  {
    hide Split, ExtendLast;
    if t == "" {
      SplitSnoc(s, '\n');
      assert s + "\n" + t == s + ['\n'];
      assert Split("") == [""] by { SplitEmpty(); }
    } else {
      var t', c := t[..|t| - 1], t[|t| - 1];
      SplitSeparated(s, t');
      SplitSnoc(s + "\n" + t', c);
      SplitSnoc(t', c);
      assert s + "\n" + t == s + "\n" + t' + [c];
      assert t == t' + [c];
      if c == '\n' {
        assert Split(s) + Split(t') + [""] == Split(s) + (Split(t') + [""]);
      } else {
        ExtendLastBehind(Split(s), Split(t'), c);
      }
    }
  }

  lemma SplitEmpty()
    ensures Split("") == [""]
  {
  }

  lemma {:induction false} SplitOfOneLine(s: string)
    requires OneLine(s)
    ensures Split(s) == [s]
  {
    if s != "" {
      SplitOfOneLine(s[..|s| - 1]);
      assert s == s[..|s| - 1] + [s[|s| - 1]];
    }
  }

  lemma {:induction false} SplitOfJoin(lines: seq<string>)
    requires lines != [] && AllOneLine(lines)
    ensures Split(Join(lines)) == lines
    decreases |lines|
  {
    hide Split, OneLine;
    var front, last := lines[..|lines| - 1], lines[|lines| - 1];
    SplitOfOneLine(last);
    if front != [] {
      SplitOfJoin(front);
      SplitSeparated(Join(front), last);
    }
    assert lines == front + [last];
  }

  lemma JoinExtendLast(lines: seq<string>, c: char)
    requires lines != []
    ensures Join(ExtendLast(lines, c)) == Join(lines) + [c]
  {
    var front, longer := lines[..|lines| - 1], ExtendLast(lines, c);
    assert longer[..|longer| - 1] == front;
    if front != [] {
      assert Join(longer) == Join(front) + "\n" + (lines[|front|] + [c]);
    }
  }

  lemma JoinSnoc(lines: seq<string>, last: string)
    requires lines != []
    ensures Join(lines + [last]) == Join(lines) + "\n" + last
  {
    assert (lines + [last])[..|lines|] == lines;
  }

  lemma {:induction false} JoinOfSplit(s: string)
    ensures Join(Split(s)) == s
  {
    if s != "" {
      hide Join;
      var t, c := s[..|s| - 1], s[|s| - 1];
      JoinOfSplit(t);
      if c == '\n' {
        JoinSnoc(Split(t), "");
        assert s == t + "\n" + "";
      } else {
        JoinExtendLast(Split(t), c);
      }
    }
  }

  lemma {:induction false} JoinOfConcatenation(a: seq<string>, b: seq<string>)
    requires a != [] && b != []
    ensures Join(a + b) == Join(a) + "\n" + Join(b)
    decreases |b|
  {
    var b' := b[..|b| - 1];
    assert (a + b)[..|a + b| - 1] == a + b';
    if b' == [] {
      assert a + b' == a;
    } else {
      JoinOfConcatenation(a, b');
    }
  }

  lemma JoinOfOne(line: string)
    ensures Join([line]) == line
  {
  }

  lemma EndsWithNewline(s: string)
    ensures SplitLines(s + "\n") == Split(s)
  {
    assert (s + "\n")[..|s|] == s;
  }

  /** Cutting blanks off the end of a text changes no line but for blanks. */
  lemma {:induction false} RStripKeepsLines(text: string, p: string -> bool)
    requires forall line :: line in Split(text) ==> p(Strip(line))
    ensures forall line :: line in Split(RStrip(text)) ==> p(Strip(line))
    decreases |text|
  {
    hide Strip;
    if text != "" && IsSpace(text[|text| - 1]) {
      var t, c := text[..|text| - 1], text[|text| - 1];
      var before := Split(t);
      assert text == t + [c];
      if c == '\n' {
        assert forall line :: line in before ==> line in before + [""];
      } else {
        LastLineStrips(before, c);
      }
      forall line | line in before
        ensures p(Strip(line))
      {
        var i :| 0 <= i < |before| && before[i] == line;
        assert c != '\n' ==> ExtendLast(before, c)[i] in ExtendLast(before, c);
      }
      RStripKeepsLines(t, p);
    }
  }

  lemma LastLineStrips(lines: seq<string>, c: char)
    requires lines != [] && IsSpace(c)
    ensures forall i :: 0 <= i < |lines| ==> Strip(ExtendLast(lines, c)[i]) == Strip(lines[i])
  {
    hide Strip;
    StripSpaceEnd(lines[|lines| - 1], c);
  }

  lemma StripEmpty()
    ensures Strip("") == ""
  {
  }
}
