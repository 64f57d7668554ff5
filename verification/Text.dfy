/**
 Header text. A string stands for the bytes of a header value, one character
 a byte. Only values whose `to_str` succeeds are ever split or trimmed, so the
 only white space that can occur in them is the space and the tab.
 */
module Text {
  import opened Basics

  predicate Blank(c: char) { c == ' ' || c == '\t' }

  predicate Visible(c: char) { '!' <= c <= '~' }

  /** `HeaderValue::to_str` succeeds. */
  predicate Readable(s: string) {
    forall i | 0 <= i < |s| :: Blank(s[i]) || Visible(s[i])
  }

  /** `HeaderValue::from_str` succeeds. */
  predicate ValidValue(s: string) {
    forall i | 0 <= i < |s| :: (' ' <= s[i] && s[i] != '\U{7F}') || s[i] == '\t'
  }

  function LowerChar(c: char): char {
    if 'A' <= c <= 'Z' then c - 'A' + 'a' else c
  }

  function Lower(s: string): string {
    seq(|s|, i requires 0 <= i < |s| => LowerChar(s[i]))
  }

  predicate EqIgnoreCase(a: string, b: string) { Lower(a) == Lower(b) }

  /** `str::split` on one character. */
  function Split(s: string, d: char): (parts: seq<string>)
    ensures parts != []
  {
    if s == "" then [""]
    else if s[0] == d then [""] + Split(s[1..], d)
    else
      var rest := Split(s[1..], d);
      [[s[0]] + rest[0]] + rest[1..]
  }

  /** `[String]::join`. */
  function Join(parts: seq<string>, sep: string): string {
    if parts == [] then ""
    else if |parts| == 1 then parts[0]
    else parts[0] + sep + Join(parts[1..], sep)
  }

  function TrimStart(s: string): (t: string)
    ensures |t| <= |s| && (t == "" || !Blank(t[0]))
  {
    if s != "" && Blank(s[0]) then TrimStart(s[1..]) else s
  }

  function TrimEnd(s: string): string {
    if s != "" && Blank(s[|s| - 1]) then TrimEnd(s[..|s| - 1]) else s
  }

  /** `str::trim`. */
  function Trim(s: string): string { TrimEnd(TrimStart(s)) }

  /** The longest blank-free prefix. */
  function FirstWord(s: string): (w: string)
    ensures |w| <= |s|
    ensures s != "" && !Blank(s[0]) ==> w != ""
  {
    if s == "" || Blank(s[0]) then "" else [s[0]] + FirstWord(s[1..])
  }

  /** `str::split_whitespace`. */
  function Words(s: string): seq<string>
    decreases |s|
  {
    var t := TrimStart(s);
    if t == "" then [] else [FirstWord(t)] + Words(t[|FirstWord(t)|..])
  }

  // ----- splitting and joining

  lemma SplitCons(c: char, s: string, d: char)
    ensures Split([c] + s, d) == if c == d then [""] + Split(s, d) else [[c] + Split(s, d)[0]] + Split(s, d)[1..]
  {
    assert ([c] + s)[1..] == s;
  }

  /** Splitting at a separator that is there gives the parts of both sides. */
  lemma {:induction false} SplitAcross(a: string, b: string, d: char)
    ensures Split(a + [d] + b, d) == Split(a, d) + Split(b, d)
  {
    hide Split;
    if a == "" {
      assert a + [d] + b == [d] + b;
      SplitCons(d, b, d);
      SplitWhole("", d);
    } else {
      var front, back := Split(a[1..], d), Split(b, d);
      SplitAcross(a[1..], b, d);
      SplitCons(a[0], a[1..], d);
      SplitCons(a[0], a[1..] + [d] + b, d);
      assert a == [a[0]] + a[1..] && a + [d] + b == [a[0]] + (a[1..] + [d] + b);
      assert (front + back)[0] == front[0] && (front + back)[1..] == front[1..] + back;
    }
  }

  /** A string without the separator is its own only part. */
  lemma {:induction false} SplitWhole(s: string, d: char)
    requires d !in s
    ensures Split(s, d) == [s]
  {
    if s != "" {
      SplitWhole(s[1..], d);
      assert [s[0]] + s[1..] == s;
    }
  }

  /** A string is its own only part exactly if the separator is not in it. */
  lemma {:induction false} SplitCount(s: string, d: char)
    ensures |Split(s, d)| == 1 <==> d !in s
  {
    if s != "" {
      SplitCount(s[1..], d);
      assert s == [s[0]] + s[1..];
    }
  }

  /** No part of a split holds the separator. */
  lemma {:induction false} SplitFree(s: string, d: char, part: string)
    requires part in Split(s, d)
    ensures d !in part
  {
    if s != "" {
      var rest := Split(s[1..], d);
      if s[0] == d {
        if part != "" { SplitFree(s[1..], d, part); }
      } else if part == [s[0]] + rest[0] {
        SplitFree(s[1..], d, rest[0]);
      } else {
        SplitFree(s[1..], d, part);
      }
    }
  }

  lemma {:induction false} JoinAppend(parts: seq<string>, last: string, sep: string)
    requires parts != []
    ensures Join(parts + [last], sep) == Join(parts, sep) + sep + last
  {
    assert (parts + [last])[1..] == parts[1..] + [last];
    if |parts| > 1 { JoinAppend(parts[1..], last, sep); }
  }

  /** Every part of a split is made of characters of the string. */
  lemma {:induction false} SplitChars(s: string, d: char, part: string, c: char)
    requires part in Split(s, d) && c in part
    ensures c in s
  {
    if s != "" {
      var rest := Split(s[1..], d);
      if s[0] == d {
        if part != "" { SplitChars(s[1..], d, part, c); }
      } else if part == [s[0]] + rest[0] {
        if c != s[0] { SplitChars(s[1..], d, rest[0], c); }
      } else {
        SplitChars(s[1..], d, part, c);
      }
    }
  }

  lemma {:induction false} JoinReadable(parts: seq<string>, sep: string)
    requires Readable(sep) && forall part | part in parts :: Readable(part)
    ensures Readable(Join(parts, sep))
  {
    if parts != [] {
      assert Readable(parts[0]);
      if |parts| > 1 { JoinReadable(parts[1..], sep); }
    }
  }

  /** The parts of a split, put together again, give the string. */
  lemma {:induction false} JoinSplit(s: string, d: char)
    ensures Join(Split(s, d), [d]) == s
  {
    if s != "" {
      JoinSplit(s[1..], d);
      var rest := Split(s[1..], d);
      if s[0] == d {
        assert Split(s, d)[1..] == rest;
      } else {
        assert Split(s, d)[1..] == rest[1..];
        assert s == [s[0]] + s[1..];
      }
    }
  }

  // ----- characters, said by their codes

  /** What can be read and what can be written as a header value. */
  lemma ValueCharacters(c: char)
    ensures Readable([c]) <==> c as int == 9 || 32 <= c as int <= 126
    ensures ValidValue([c]) <==> c as int == 9 || (32 <= c as int && c as int != 127)
    ensures Blank(c) <==> c as int == 9 || c as int == 32
  {
    assert [c][0] == c;
  }

  /** The same letter, or one its capital. */
  predicate SameLetter(c: char, d: char) {
    || c == d
    || (65 <= c as int <= 90 && d as int == c as int + 32)
    || (65 <= d as int <= 90 && c as int == d as int + 32)
  }

  predicate SameButCase(a: string, b: string) { |a| == |b| && forall i | 0 <= i < |a| :: SameLetter(a[i], b[i]) }

  lemma LowerLetters(c: char, d: char)
    ensures LowerChar(c) == LowerChar(d) <==> SameLetter(c, d)
  {
  }

  /** Ignoring case is ignoring whether ASCII letters are capitals, and nothing else. */
  lemma IgnoringCase(a: string, b: string)
    ensures EqIgnoreCase(a, b) <==> SameButCase(a, b)
  {
    hide LowerChar, SameLetter;
    forall i | 0 <= i < |a| && i < |b| ensures LowerChar(a[i]) == LowerChar(b[i]) <==> SameLetter(a[i], b[i]) {
      LowerLetters(a[i], b[i]);
    }
    if EqIgnoreCase(a, b) {
      assert |Lower(a)| == |a| && |Lower(b)| == |b|;
      forall i | 0 <= i < |a| ensures SameLetter(a[i], b[i]) {
        assert LowerChar(a[i]) == Lower(a)[i] == Lower(b)[i] == LowerChar(b[i]);
      }
    }
    assert SameButCase(a, b) ==> Lower(a) == Lower(b);
  }

  // ----- trimming

  predicate AllBlank(s: string) { forall i | 0 <= i < |s| :: Blank(s[i]) }

  /** Neither end is blank. */
  predicate Edged(t: string) { t == "" || (!Blank(t[0]) && !Blank(t[|t| - 1])) }

  lemma {:induction false} TrimStartPadded(a: string, t: string)
    requires AllBlank(a) && (t == "" || !Blank(t[0]))
    ensures TrimStart(a + t) == t
  {
    if a == "" {
      assert a + t == t;
    } else {
      assert (a + t)[1..] == a[1..] + t;
      TrimStartPadded(a[1..], t);
    }
  }

  lemma {:induction false} TrimEndPadded(t: string, b: string)
    requires AllBlank(b) && (t == "" || !Blank(t[|t| - 1]))
    ensures TrimEnd(t + b) == t
  {
    if b == "" {
      assert t + b == t;
    } else {
      assert (t + b)[..|t + b| - 1] == t + b[..|b| - 1];
      TrimEndPadded(t, b[..|b| - 1]);
    }
  }

  /** Trimming takes the blanks off both ends, */
  lemma TrimPadded(a: string, t: string, b: string)
    requires AllBlank(a) && AllBlank(b) && Edged(t)
    ensures Trim(a + t + b) == t
  {
    if t == "" {
      assert a + t + b == (a + b) + "";
      TrimStartPadded(a + b, "");
    } else {
      assert a + t + b == a + (t + b);
      TrimStartPadded(a, t + b);
      TrimEndPadded(t, b);
    }
  }

  lemma {:induction false} TrimStartShape(s: string) returns (a: string)
    ensures AllBlank(a) && s == a + TrimStart(s)
  {
    if s != "" && Blank(s[0]) {
      var a' := TrimStartShape(s[1..]);
      a := [s[0]] + a';
    } else {
      a := "";
    }
  }

  lemma {:induction false} TrimEndShape(s: string) returns (b: string)
    ensures AllBlank(b) && s == TrimEnd(s) + b
    ensures TrimEnd(s) == "" || !Blank(TrimEnd(s)[|TrimEnd(s)| - 1])
  {
    if s != "" && Blank(s[|s| - 1]) {
      var b' := TrimEndShape(s[..|s| - 1]);
      b := b' + [s[|s| - 1]];
    } else {
      b := "";
    }
  }

  /** and nothing else. */
  lemma TrimShape(s: string) returns (a: string, b: string)
    ensures AllBlank(a) && AllBlank(b) && Edged(Trim(s)) && s == a + Trim(s) + b
  {
    a := TrimStartShape(s);
    b := TrimEndShape(TrimStart(s));
    assert Trim(s) != "" ==> TrimStart(s)[0] == Trim(s)[0];
  }

  // ----- words

  /** A blank-free, non-empty string followed by nothing or a blank is one word. */
  lemma {:induction false} WordFirst(w: string, rest: string)
    requires forall c | c in w :: !Blank(c)
    requires rest == "" || Blank(rest[0])
    ensures FirstWord(w + rest) == w
  {
    if w == "" {
      assert w + rest == rest;
    } else {
      assert (w + rest)[1..] == w[1..] + rest;
      WordFirst(w[1..], rest);
    }
  }

  lemma WordsLead(w: string, rest: string)
    requires w != "" && forall c | c in w :: !Blank(c)
    requires rest == "" || Blank(rest[0])
    ensures Words(w + rest) == [w] + Words(rest)
  {
    WordFirst(w, rest);
    assert (w + rest)[0] == w[0];
    assert (w + rest)[|w|..] == rest;
  }

  lemma WordsOfOne(w: string)
    requires w != "" && forall c | c in w :: !Blank(c)
    ensures Words(w) == [w]
  {
    WordsLead(w, "");
    assert w + "" == w;
  }

  lemma WordsSkipBlank(s: string)
    ensures Words(" " + s) == Words(s)
  {
    assert (" " + s)[1..] == s;
  }

  lemma WordsOfTwo(a: string, b: string)
    requires a != "" && forall c | c in a :: !Blank(c)
    requires b != "" && forall c | c in b :: !Blank(c)
    ensures Words(a + " " + b) == [a, b]
  {
    assert a + " " + b == a + (" " + b);
    WordsLead(a, " " + b);
    WordsSkipBlank(b);
    WordsOfOne(b);
  }

  /** Words are non-empty, blank-free and made of characters of the string. */
  lemma {:induction false} WordsShape(s: string, w: string)
    requires w in Words(s)
    ensures w != "" && forall c | c in w :: !Blank(c) && c in s
    decreases |s|
  {
    var t := TrimStart(s);
    TrimStartChars(s);
    var first := FirstWord(t);
    FirstWordChars(t);
    if w != first {
      var rest := t[|first|..];
      WordsShape(rest, w);
      forall c | c in w ensures c in s { assert c in rest; assert c in t; }
    }
  }

  lemma {:induction false} TrimStartChars(s: string)
    ensures forall c | c in TrimStart(s) :: c in s
  {
    if s != "" && Blank(s[0]) { TrimStartChars(s[1..]); }
  }

  lemma {:induction false} FirstWordChars(s: string)
    ensures forall c | c in FirstWord(s) :: c in s && !Blank(c)
  {
    if s != "" && !Blank(s[0]) { FirstWordChars(s[1..]); }
  }

  // ----- lines of a list-valued header

  /** The values of a header that can be read as text, in order. */
  function Lines(values: seq<string>): seq<string> {
    if values == [] then []
    else (if Readable(values[0]) then [values[0]] else []) + Lines(values[1..])
  }

  /** All comma-separated elements of the readable values, in order. */
  function Elements(values: seq<string>): seq<string> {
    if values == [] then []
    else (if Readable(values[0]) then Split(values[0], ',') else []) + Elements(values[1..])
  }

  /** The readable values of a list header and one more, joined into one line. */
  function Combined(values: seq<string>, own: string): string {
    var existing := Lines(values);
    if existing == [] then own else Join(existing, ", ") + ", " + own
  }

  lemma {:induction false} LinesReadable(values: seq<string>)
    ensures forall line | line in Lines(values) :: Readable(line) && line in values
  {
    if values != [] { LinesReadable(values[1..]); }
  }

  lemma {:induction false} LinesAllReadable(values: seq<string>)
    requires forall line | line in values :: Readable(line)
    ensures Lines(values) == values
  {
    if values != [] {
      assert values[0] in values;
      LinesAllReadable(values[1..]);
    }
  }

  /** Appending a readable line gives one legal, readable line: the old lines and the new one, joined. */
  lemma CombinedLine(values: seq<string>, own: string)
    requires Readable(own)
    ensures Combined(values, own) == Join(Lines(values) + [own], ", ")
    ensures Readable(Combined(values, own)) && ValidValue(Combined(values, own))
  {
    var existing := Lines(values);
    LinesReadable(values);
    JoinReadable(existing + [own], ", ");
    if existing != [] {
      JoinAppend(existing, own, ", ");
    } else {
      assert existing + [own] == [own];
    }
  }

  lemma {:induction false} ElementsOfLines(values: seq<string>)
    ensures Elements(Lines(values)) == Elements(values)
  {
    if values != [] {
      ElementsOfLines(values[1..]);
      if Readable(values[0]) {
        assert Lines(values)[1..] == Lines(values[1..]);
      } else {
        assert Lines(values) == Lines(values[1..]);
      }
    }
  }

  /** Each element is readable, comma-free and a part of some readable value. */
  lemma {:induction false} ElementsShape(values: seq<string>, e: string)
    requires e in Elements(values)
    ensures Readable(e) && ',' !in e
    ensures exists v | v in values && Readable(v) :: e in Split(v, ',')
  {
    if Readable(values[0]) && e in Split(values[0], ',') {
      SplitFree(values[0], ',', e);
      forall i | 0 <= i < |e| ensures Blank(e[i]) || Visible(e[i]) {
        SplitChars(values[0], ',', e, e[i]);
      }
    } else {
      ElementsShape(values[1..], e);
    }
  }
}
