/** Substituting path parameters into a URL template. */
module Template {
  import opened Basics

  datatype Param = Param(key: string, value: string)

  /** The characters that give a URL its structure and are encoded in every value. */
  const DELIMITERS: string := "@#?\\[] "

  const HEX: string := "0123456789ABCDEF"

  /** Controls, delimiters and every byte that is not ASCII are encoded. A character stands for a byte. */
  predicate Encoded(c: char) { c <= ' ' || c >= '\U{7F}' || c in DELIMITERS }

  function EncodeByte(c: char): string {
    if Encoded(c) then ['%', HEX[(c as int / 16) % 16], HEX[c as int % 16]] else [c]
  }

  /** `utf8_percent_encode` with the template's set. */
  function Encode(value: string): string {
    if value == "" then "" else EncodeByte(value[0]) + Encode(value[1..])
  }

  /** `str::replace` with a non-empty pattern: leftmost, not overlapping. */
  function Replace(s: string, pattern: string, encoded: string): string
    requires pattern != ""
    decreases |s|
  {
    if s == "" then ""
    else if pattern <= s then encoded + Replace(s[|pattern|..], pattern, encoded)
    else [s[0]] + Replace(s[1..], pattern, encoded)
  }

  function Placeholder(key: string): string { "{" + key + "}" }

  /** The template after its parameters, one after the other. */
  function Resolved(template: string, params: seq<Param>): string
    decreases |params|
  {
    if params == [] then template
    else Resolved(Replace(template, Placeholder(params[0].key), Encode(params[0].value)), params[1..])
  }

  method Resolve(template: string, params: seq<Param>) returns (result: string)
    ensures result == Resolved(template, params)
  {
    result := template;
    for i := 0 to |params|
      invariant Resolved(template, params) == Resolved(result, params[i..])
    {
      assert params[i..][1..] == params[i + 1..];
      result := Replace(result, Placeholder(params[i].key), Encode(params[i].value));
    }
  }

  // ----- encoding, said of the bytes, and undone

  /** A character that stands for a byte. */
  predicate Byte(c: char) { c as int < 256 }

  /** Visible bytes but six delimiters are copied; these, the space, the controls and all but ASCII are escaped. */
  lemma EscapedExactly(c: char)
    ensures var n := c as int;
            EncodeByte(c) == [c] <==> 33 <= n <= 126 && n !in {35, 63, 64, 91, 92, 93}
    ensures EncodeByte(c) != [c] ==> |EncodeByte(c)| == 3 && EncodeByte(c)[0] == '%'
  {
    assert DELIMITERS == ['@', '#', '?', '\\', '[', ']', ' '];
  }

  /** The value of a hexadecimal digit. */
  function HexValue(c: char): Option<nat> {
    if '0' <= c <= '9' then Some((c - '0') as nat)
    else if 'A' <= c <= 'F' then Some((c - 'A') as nat + 10)
    else if 'a' <= c <= 'f' then Some((c - 'a') as nat + 10)
    else None
  }

  /** The byte of an escape at the front, if there is one. */
  function EscapeAt(s: string): Option<char> {
    if |s| < 3 || s[0] != '%' then None
    else match (HexValue(s[1]), HexValue(s[2]))
         case (Some(high), Some(low)) => if high < 16 && low < 16 then Some((16 * high + low) as char) else None
         case _ => None
  }

  /** Percent-decoding, as any receiver does it. */
  function Decode(s: string): string
    decreases |s|
  {
    if s == "" then ""
    else match EscapeAt(s)
         case Some(c) => [c] + Decode(s[3..])
         case None => [s[0]] + Decode(s[1..])
  }

  lemma HexDigits(d: nat)
    requires d < 16
    ensures HexValue(HEX[d]) == Some(d)
  {
  }

  /** An escaped byte is read back. */
  lemma EscapeReads(c: char, rest: string)
    requires Byte(c) && Encoded(c)
    ensures EscapeAt(EncodeByte(c) + rest) == Some(c) && (EncodeByte(c) + rest)[3..] == rest
  {
    hide HexValue;
    var n := c as int;
    HexDigits((n / 16) % 16);
    HexDigits(n % 16);
    var s := EncodeByte(c) + rest;
    assert s[0] == '%' && s[1] == HEX[(n / 16) % 16] && s[2] == HEX[n % 16];
  }

  lemma HexIsCopied(c: char)
    ensures HexValue(c).Some? ==> EncodeByte(c) == [c]
    ensures HexValue('%') == None && EncodeByte('%') == ['%']
  {
  }

  /** An escape stands at the front of the encoded text exactly if it stood there before. */
  lemma SameEscape(s: string)
    requires s != "" && s[0] == '%'
    ensures EscapeAt(Encode(s)) == EscapeAt(s)
    ensures EscapeAt(s).Some? ==> Encode(s)[3..] == Encode(s[3..])
  {
    hide HexValue, EncodeByte, Encoded;
    EncodeFront(s);
    if |s| > 1 {
      EncodeFront(s[1..]);
      if |s| > 2 { EncodeFront(s[2..]); }
    }
  }

  /** How the encoded text begins. */
  lemma EncodeFront(s: string)
    requires s != ""
    ensures HexValue(s[0]).Some? || s[0] == '%' ==> Encode(s) == [s[0]] + Encode(s[1..])
    ensures HexValue(s[0]) == None ==> Encode(s) != "" && HexValue(Encode(s)[0]) == None
    ensures Encode("") == ""
  {
    HexIsCopied(s[0]);
  }

  /** Decoding takes away all that encoding adds: the encoded text decodes as the value itself does. */
  lemma {:induction false} EncodeDecodes(value: string)
    requires forall i | 0 <= i < |value| :: Byte(value[i])
    ensures Decode(Encode(value)) == Decode(value)
    decreases |value|
  {
    hide EscapeAt, HexValue;
    if value != "" {
      var rest := value[1..];
      EncodeDecodes(rest);
      if Encoded(value[0]) {
        EscapeReads(value[0], Encode(rest));
        assert EscapeAt(value) == None by { NoEscape(value); }
      } else if value[0] == '%' {
        SameEscape(value);
        assert Encode(value) == [value[0]] + Encode(rest);
        if EscapeAt(value).Some? {
          assert |value| >= 3 by { EscapeLong(value); }
          EncodeDecodes(value[3..]);
        }
      } else {
        assert Encode(value) == [value[0]] + Encode(rest);
        NoEscape(value);
        NoEscape(Encode(value));
      }
    }
  }

  lemma NoEscape(s: string)
    requires s != "" && s[0] != '%'
    ensures EscapeAt(s) == None
  {
  }

  lemma EscapeLong(s: string)
    requires EscapeAt(s).Some?
    ensures |s| >= 3
  {
  }

  /** The text holds an escape somewhere. */
  predicate HoldsEscape(s: string) { exists i | 0 <= i < |s| :: EscapeAt(s[i..]).Some? }

  lemma {:induction false} DecodeLength(s: string)
    ensures |Decode(s)| <= |s|
    ensures !HoldsEscape(s) ==> Decode(s) == s
    ensures HoldsEscape(s) ==> |Decode(s)| < |s|
    decreases |s|
  {
    hide EscapeAt;
    if s != "" {
      assert s[0..] == s;
      if EscapeAt(s).Some? {
        EscapeLong(s);
        DecodeLength(s[3..]);
        assert EscapeAt(s[0..]).Some?;
      } else {
        DecodeLength(s[1..]);
        assert forall i | 0 <= i < |s[1..]| :: s[1..][i..] == s[i + 1..];
        if HoldsEscape(s) {
          var i :| 0 <= i < |s| && EscapeAt(s[i..]).Some?;
          assert i > 0 && s[1..][i - 1..] == s[i..];
        } else {
          assert s == [s[0]] + s[1..];
        }
      }
    }
  }

  /** So the upstream reads a value back exactly if it holds no escape of its own, as no value without '%' does. */
  lemma ValueReadsBack(value: string)
    requires forall i | 0 <= i < |value| :: Byte(value[i])
    ensures Decode(Encode(value)) == value <==> !HoldsEscape(value)
    ensures '%' !in value ==> !HoldsEscape(value)
  {
    hide Encode, Decode;
    EncodeDecodes(value);
    DecodeLength(value);
    assert forall i | 0 <= i < |value| :: value[i..][0] == value[i];
    if '%' !in value {
      forall i | 0 <= i < |value| ensures EscapeAt(value[i..]) == None { NoEscape(value[i..]); }
    }
  }

  // ----- delimiters

  /** The delimiters of a string, in order. */
  function Delimiters(s: string): string {
    if s == "" then "" else Delimiter(s[0]) + Delimiters(s[1..])
  }

  function Delimiter(c: char): string { if c in DELIMITERS then [c] else "" }

  lemma {:induction false} DelimitersConcat(a: string, b: string)
    ensures Delimiters(a + b) == Delimiters(a) + Delimiters(b)
  {
    hide Delimiter;
    if a == "" {
      assert a + b == b;
    } else {
      assert (a + b)[1..] == a[1..] + b;
      DelimitersConcat(a[1..], b);
      var head := Delimiter(a[0]);
      assert head + (Delimiters(a[1..]) + Delimiters(b)) == head + Delimiters(a[1..]) + Delimiters(b);
    }
  }

  lemma {:induction false} NoDelimiters(s: string)
    requires forall c | c in s :: c !in DELIMITERS
    ensures Delimiters(s) == ""
  {
    if s != "" { NoDelimiters(s[1..]); }
  }

  lemma EncodeByteSafe(c: char)
    ensures forall d | d in EncodeByte(c) :: d !in DELIMITERS
  {
    assert forall i | 0 <= i < 16 :: '0' <= HEX[i] <= '9' || 'A' <= HEX[i] <= 'F';
  }

  /** An encoded value holds no delimiter. */
  lemma {:induction false} EncodeSafe(value: string)
    ensures forall d | d in Encode(value) :: d !in DELIMITERS
  {
    hide EncodeByte;
    if value != "" {
      EncodeByteSafe(value[0]);
      EncodeSafe(value[1..]);
    }
  }

  lemma {:induction false} ReplaceKeepsDelimiters(s: string, pattern: string, encoded: string)
    requires pattern != "" && Delimiters(pattern) == "" && Delimiters(encoded) == ""
    ensures Delimiters(Replace(s, pattern, encoded)) == Delimiters(s)
    decreases |s|
  {
    if s == "" {
    } else if pattern <= s {
      var rest := s[|pattern|..];
      assert s == pattern + rest;
      DelimitersConcat(pattern, rest);
      DelimitersConcat(encoded, Replace(rest, pattern, encoded));
      ReplaceKeepsDelimiters(rest, pattern, encoded);
    } else {
      ReplaceKeepsDelimiters(s[1..], pattern, encoded);
      DelimitersConcat([s[0]], Replace(s[1..], pattern, encoded));
      DelimitersConcat([s[0]], s[1..]);
      assert s == [s[0]] + s[1..];
    }
  }

  ghost predicate PlainKeys(params: seq<Param>) {
    forall i, c | 0 <= i < |params| && c in params[i].key :: c !in DELIMITERS
  }

  /** Whatever the values are, the URL keeps the delimiters of its template, no more, no fewer, in their order. */
  lemma {:induction false} ResolvingKeepsDelimiters(template: string, params: seq<Param>)
    requires PlainKeys(params)
    ensures Delimiters(Resolved(template, params)) == Delimiters(template)
    decreases |params|
  {
    if params != [] {
      var placeholder, encoded := Placeholder(params[0].key), Encode(params[0].value);
      EncodeSafe(params[0].value);
      NoDelimiters(encoded);
      NoDelimiters(placeholder);
      ReplaceKeepsDelimiters(template, placeholder, encoded);
      ResolvingKeepsDelimiters(Replace(template, placeholder, encoded), params[1..]);
    }
  }

  // ----- one simultaneous substitution

  /** A template as a sequence of texts and placeholders. */
  datatype Segment = Text(text: string) | Hole(name: string)

  predicate BraceFree(s: string) { '{' !in s && '}' !in s }

  /** No nesting: a text opens no brace, a placeholder's name holds none. */
  predicate Flat(segments: seq<Segment>) {
    forall i | 0 <= i < |segments| ::
      if segments[i].Text? then '{' !in segments[i].text else BraceFree(segments[i].name)
  }

  function Render(segments: seq<Segment>): string {
    if segments == [] then ""
    else (match segments[0] case Text(t) => t case Hole(n) => Placeholder(n)) + Render(segments[1..])
  }

  /** Put a text in the place of every hole with this name. */
  function Fill(segments: seq<Segment>, name: string, encoded: string): seq<Segment> {
    seq(|segments|, i requires 0 <= i < |segments| => if segments[i] == Hole(name) then Text(encoded) else segments[i])
  }

  function Lookup(params: seq<Param>, name: string): Option<string> {
    if params == [] then None
    else if params[0].key == name then Some(params[0].value)
    else Lookup(params[1..], name)
  }

  /** Every hole is replaced by its own parameter, all at once; a hole without one stays. */
  function Substituted(segments: seq<Segment>, params: seq<Param>): string {
    if segments == [] then ""
    else
      (match segments[0]
       case Text(t) => t
       case Hole(n) => match Lookup(params, n) case Some(v) => Encode(v) case None => Placeholder(n))
      + Substituted(segments[1..], params)
  }

  // ----- texts in which no placeholder can be found

  /** The position of the first brace, or the length. */
  function FirstBrace(s: string): (i: nat)
    ensures i <= |s| && BraceFree(s[..i]) && (i < |s| ==> s[i] == '{' || s[i] == '}')
  {
    if s == "" || s[0] == '{' || s[0] == '}' then 0 else 1 + FirstBrace(s[1..])
  }

  /** After an opening brace: another one follows first, or a closing one that ends the placeholder of `own`. */
  predicate ClosedBy(s: string, own: string) {
    var i := FirstBrace(s);
    i < |s| && (s[i] == '{' || s[..i] == own)
  }

  /** Every placeholder that the text spells, or begins and lets what follows complete, is that of `own`. */
  predicate Harmless(s: string, own: string) {
    s == "" || ((s[0] == '{' ==> ClosedBy(s[1..], own)) && Harmless(s[1..], own))
  }

  /** The placeholder of `key` starts nowhere in the text, whatever follows it. */
  predicate Inert(s: string, key: string) {
    s == "" || (Inert(s[1..], key) && (s[0] == '{' ==> Misses(s[1..], key)))
  }

  /** The text cannot be continued to start with `key` and a closing brace. */
  predicate Misses(s: string, key: string) {
    var i := FirstBrace(s);
    i < |s| && (s[i] == '{' || s[..i] != key)
  }

  lemma {:induction false} PlainIsHarmless(s: string, own: string)
    requires '{' !in s
    ensures Harmless(s, own)
  {
    if s != "" { PlainIsHarmless(s[1..], own); }
  }

  lemma {:induction false} PlainIsInert(s: string, key: string)
    requires '{' !in s
    ensures Inert(s, key)
  {
    if s != "" { PlainIsInert(s[1..], key); }
  }

  lemma {:induction false} HarmlessIsInert(s: string, own: string, key: string)
    requires Harmless(s, own) && key != own
    ensures Inert(s, key)
  {
    if s != "" { HarmlessIsInert(s[1..], own, key); }
  }

  lemma EncodeByteBraces(c: char)
    ensures '{' in EncodeByte(c) <==> c == '{'
  {
    assert forall i | 0 <= i < 16 :: '0' <= HEX[i] <= '9' || 'A' <= HEX[i] <= 'F';
  }

  /** Encoding neither makes nor hides an opening brace. */
  lemma {:induction false} EncodeBraces(value: string)
    ensures '{' in Encode(value) <==> '{' in value
  {
    hide EncodeByte;
    if value != "" {
      EncodeByteBraces(value[0]);
      EncodeBraces(value[1..]);
      assert value == [value[0]] + value[1..];
    }
  }

  lemma {:induction false} FirstBraceAt(a: string, b: string)
    requires BraceFree(a) && b != "" && (b[0] == '{' || b[0] == '}')
    ensures FirstBrace(a + b) == |a|
  {
    if a == "" {
      assert a + b == b;
    } else {
      assert (a + b)[1..] == a[1..] + b;
      FirstBraceAt(a[1..], b);
    }
  }

  /** The first brace of a text stays the first when more follows. */
  lemma FirstBraceStays(text: string, rest: string)
    requires FirstBrace(text) < |text|
    ensures FirstBrace(text + rest) == FirstBrace(text)
  {
    var i := FirstBrace(text);
    assert text + rest == text[..i] + (text[i..] + rest);
    FirstBraceAt(text[..i], text[i..] + rest);
  }

  lemma MissesPlaceholder(text: string, rest: string, key: string)
    requires text != "" && (text[0] == '{' ==> Misses(text[1..], key)) && BraceFree(key)
    ensures !(Placeholder(key) <= text + rest)
  {
    var s, pattern := text + rest, Placeholder(key);
    assert pattern[0] == '{' && s[0] == text[0];
    if pattern <= s && text[0] == '{' {
      var tail := s[|pattern|..];
      assert s[1..] == text[1..] + rest;
      assert s[1..] == key + ("}" + tail) by { assert s == pattern + tail; }
      FirstBraceAt(key, "}" + tail);
      FirstBraceStays(text[1..], rest);
      SamePrefix(text[1..], rest, key, "}" + tail);
    }
  }

  lemma SamePrefix(text: string, rest: string, key: string, tail: string)
    requires text + rest == key + tail && |key| < |text| && tail != ""
    ensures text[..|key|] == key && text[|key|] == tail[0]
  {
    var s := text + rest;
    assert s[..|key|] == text[..|key|] && s[|key|] == text[|key|];
    assert s[..|key|] == key && s[|key|] == tail[0];
  }

  /** A text in which the placeholder cannot start is copied. */
  lemma {:induction false} ReplaceSkips(text: string, rest: string, key: string, encoded: string)
    requires Inert(text, key) && BraceFree(key)
    ensures Replace(text + rest, Placeholder(key), encoded) == text + Replace(rest, Placeholder(key), encoded)
  {
    hide Misses, FirstBrace;
    if text == "" {
      assert text + rest == rest;
    } else {
      var s := text + rest;
      assert s[0] == text[0] && s[1..] == text[1..] + rest;
      MissesPlaceholder(text, rest, key);
      ReplaceSkips(text[1..], rest, key, encoded);
    }
  }

  /** A placeholder at the front is replaced if it is the one looked for, and copied otherwise. */
  lemma ReplaceAtHole(name: string, rest: string, key: string, encoded: string)
    requires BraceFree(name) && BraceFree(key)
    ensures Replace(Placeholder(name) + rest, Placeholder(key), encoded) ==
            (if name == key then encoded else Placeholder(name)) + Replace(rest, Placeholder(key), encoded)
  {
    var s, pattern := Placeholder(name) + rest, Placeholder(key);
    if name == key {
      assert s[|pattern|..] == rest;
    } else {
      if pattern <= s {
        SamePlaceholder(name, rest, key);
      }
      assert s[0] == '{' && s[1..] == (name + "}") + rest;
      PlainIsInert(name + "}", key);
      ReplaceSkips(name + "}", rest, key, encoded);
      assert ['{'] + (name + "}") == Placeholder(name);
    }
  }

  lemma SamePlaceholder(name: string, rest: string, key: string)
    requires BraceFree(name) && BraceFree(key) && Placeholder(key) <= Placeholder(name) + rest
    ensures name == key
  {
    var s := Placeholder(name) + rest;
    assert s[|key| + 1] == '}' && s[|name| + 1] == '}';
    assert forall i | 0 <= i < |name| :: s[i + 1] == name[i];
    assert forall i | 0 <= i < |key| :: s[i + 1] == key[i];
    assert |key| == |name|;
    assert name == s[1..|name| + 1] && key == s[1..|key| + 1];
  }

  /** Holes are brace-free, and the placeholder of `key` is found in no text. */
  ghost predicate FlatFor(segments: seq<Segment>, key: string) {
    forall i | 0 <= i < |segments| ::
      if segments[i].Text? then Inert(segments[i].text, key) else BraceFree(segments[i].name)
  }

  lemma {:induction false} ReplaceFills(segments: seq<Segment>, key: string, encoded: string)
    requires FlatFor(segments, key) && BraceFree(key)
    ensures Replace(Render(segments), Placeholder(key), encoded) == Render(Fill(segments, key, encoded))
  {
    hide Inert, Replace;
    if segments != [] {
      var rest := segments[1..];
      assert Fill(segments, key, encoded)[1..] == Fill(rest, key, encoded);
      ReplaceFills(rest, key, encoded);
      match segments[0]
      case Text(t) => ReplaceSkips(t, Render(rest), key, encoded);
      case Hole(n) => ReplaceAtHole(n, Render(rest), key, encoded);
    } else {
      assert Replace("", Placeholder(key), encoded) == "" by { ReplaceNothing(Placeholder(key), encoded); }
    }
  }

  lemma ReplaceNothing(pattern: string, encoded: string)
    requires pattern != ""
    ensures Replace("", pattern, encoded) == ""
  {
  }

  /** Path parameters: the keys are brace-free and distinct. */
  ghost predicate ProperKeys(params: seq<Param>) {
    && (forall i | 0 <= i < |params| :: BraceFree(params[i].key))
    && (forall i, j | 0 <= i < j < |params| :: params[i].key != params[j].key)
  }

  /** And no value spells or begins the placeholder of another key. */
  ghost predicate ProperParams(params: seq<Param>) {
    ProperKeys(params) && forall i | 0 <= i < |params| :: Harmless(Encode(params[i].value), params[i].key)
  }

  lemma {:induction false} FilledSubstitutes(segments: seq<Segment>, params: seq<Param>)
    requires params != [] && Lookup(params[1..], params[0].key) == None
    ensures var filled := Fill(segments, params[0].key, Encode(params[0].value));
            Substituted(filled, params[1..]) == Substituted(segments, params)
  {
    if segments != [] {
      var key, encoded := params[0].key, Encode(params[0].value);
      assert Fill(segments, key, encoded)[1..] == Fill(segments[1..], key, encoded);
      FilledSubstitutes(segments[1..], params);
    }
  }

  lemma {:induction false} NotFound(params: seq<Param>, name: string)
    requires forall i | 0 <= i < |params| :: params[i].key != name
    ensures Lookup(params, name) == None
  {
    if params != [] { NotFound(params[1..], name); }
  }

  lemma {:induction false} NothingToSubstitute(segments: seq<Segment>)
    ensures Substituted(segments, []) == Render(segments)
  {
    if segments != [] { NothingToSubstitute(segments[1..]); }
  }

  ghost predicate FlatForAll(segments: seq<Segment>, params: seq<Param>) {
    forall i | 0 <= i < |params| :: FlatFor(segments, params[i].key)
  }

  lemma FilledIsFlat(segments: seq<Segment>, params: seq<Param>)
    requires params != [] && FlatForAll(segments, params) && ProperParams(params)
    ensures FlatForAll(Fill(segments, params[0].key, Encode(params[0].value)), params[1..])
  {
    hide Inert, Harmless;
    var key, encoded := params[0].key, Encode(params[0].value);
    forall i | 0 <= i < |params[1..]| ensures FlatFor(Fill(segments, key, encoded), params[1..][i].key) {
      assert params[1..][i] == params[i + 1] && FlatFor(segments, params[i + 1].key);
      HarmlessIsInert(encoded, key, params[i + 1].key);
    }
  }

  lemma {:induction false} ResolvedFills(segments: seq<Segment>, params: seq<Param>)
    requires FlatForAll(segments, params) && ProperParams(params)
    ensures Resolved(Render(segments), params) == Substituted(segments, params)
    decreases |params|
  {
    hide FlatFor, Harmless;
    if params == [] {
      NothingToSubstitute(segments);
    } else {
      var key, encoded := params[0].key, Encode(params[0].value);
      assert FlatFor(segments, key);
      ReplaceFills(segments, key, encoded);
      NotFound(params[1..], key);
      FilledSubstitutes(segments, params);
      FilledIsFlat(segments, params);
      ResolvedFills(Fill(segments, key, encoded), params[1..]);
    }
  }

  /** The loop of replacements is one simultaneous substitution. */
  lemma ResolvedIsSubstituted(segments: seq<Segment>, params: seq<Param>)
    requires Flat(segments) && ProperParams(params)
    ensures Resolved(Render(segments), params) == Substituted(segments, params)
  {
    forall i | 0 <= i < |params| ensures FlatFor(segments, params[i].key) {
      forall k | 0 <= k < |segments| && segments[k].Text? ensures Inert(segments[k].text, params[i].key) {
        PlainIsInert(segments[k].text, params[i].key);
      }
    }
    ResolvedFills(segments, params);
  }

  // ----- and exactly when it is not

  /** One value, among companions that open no brace, comes out unchanged in every flat template. */
  ghost predicate SafeIn(segments: seq<Segment>, params: seq<Param>, p: Param) {
    && Flat(segments) && ProperKeys(params) && p in params
    && (forall q | q in params && q != p :: '{' !in q.value)
    ==> Resolved(Render(segments), params) == Substituted(segments, params)
  }

  ghost predicate Safe(p: Param) { forall segments, params :: SafeIn(segments, params, p) }

  lemma HarmlessIsSafe(p: Param)
    requires Harmless(Encode(p.value), p.key)
    ensures Safe(p)
  {
    hide Harmless, Resolved, Substituted;
    forall segments: seq<Segment>, params: seq<Param> ensures SafeIn(segments, params, p) {
      if Flat(segments) && ProperKeys(params) && p in params
         && (forall q | q in params && q != p :: '{' !in q.value)
      {
        forall i | 0 <= i < |params| ensures Harmless(Encode(params[i].value), params[i].key) {
          if params[i] != p {
            assert params[i] in params;
            EncodeBraces(params[i].value);
            PlainIsHarmless(Encode(params[i].value), params[i].key);
          }
        }
        ResolvedIsSubstituted(segments, params);
      }
    }
  }

  /** The pattern occurs at this position. */
  predicate OccursAt(s: string, pattern: string, i: nat) { i <= |s| && pattern <= s[i..] }

  /** Deleting a pattern that occurs makes a string shorter. */
  lemma {:induction false} ReplaceShrinks(s: string, pattern: string)
    requires pattern != ""
    ensures |Replace(s, pattern, "")| <= |s|
    ensures (exists i: nat :: OccursAt(s, pattern, i)) ==> |Replace(s, pattern, "")| < |s|
    decreases |s|
  {
    if s != "" {
      if pattern <= s {
        ReplaceShrinks(s[|pattern|..], pattern);
      } else {
        ReplaceShrinks(s[1..], pattern);
        if i: nat :| OccursAt(s, pattern, i) {
          assert i > 0 && s[1..][i - 1..] == s[i..];
          assert OccursAt(s[1..], pattern, i - 1);
        }
      }
    }
  }

  /** A text that is not harmless spells, or begins, the placeholder of some other key. */
  lemma {:induction false} Harm(s: string, own: string) returns (name: string, tail: string, i: nat)
    requires !Harmless(s, own)
    ensures BraceFree(name) && name != own && '{' !in tail && OccursAt(s + tail, Placeholder(name), i)
  {
    if s[0] == '{' && !ClosedBy(s[1..], own) {
      var rest := s[1..];
      var b := FirstBrace(rest);
      i := 0;
      if b < |rest| {
        name, tail := rest[..b], "";
        assert s + tail == Placeholder(name) + rest[b + 1..];
      } else {
        var more := if rest == own then "x" else "";
        name, tail := rest + more, more + "}";
        assert rest == rest[..b];
        assert s + tail == Placeholder(name);
      }
      assert (s + tail)[0..] == s + tail;
    } else {
      var j: nat;
      name, tail, j := Harm(s[1..], own);
      i := j + 1;
      assert (s + tail)[i..] == (s[1..] + tail)[j..];
    }
  }

  /** What goes wrong: an empty companion deletes the placeholder that the value spells or begins. */
  lemma Unsafe(p: Param) returns (segments: seq<Segment>, params: seq<Param>)
    requires BraceFree(p.key) && !Harmless(Encode(p.value), p.key)
    ensures !SafeIn(segments, params, p)
  {
    hide Replace, Encode, Resolved, Harmless;
    var encoded := Encode(p.value);
    var name, tail, i := Harm(encoded, p.key);
    var q := Param(name, "");
    segments, params := [Hole(p.key), Text(tail)], [p, q];
    RenderTwo(p.key, tail);
    SubstituteTwo(p, q, tail);
    ReplaceAtHole(p.key, tail, p.key, encoded);
    PlainIsInert(tail, p.key);
    ReplaceSkips(tail, "", p.key, encoded);
    ReplaceNothing(Placeholder(p.key), encoded);
    assert tail + "" == tail;
    TwoParams(Placeholder(p.key) + tail, p, q);
    EncodeNothing();
    ReplaceShrinks(encoded + tail, Placeholder(name));
  }

  lemma EncodeNothing()
    ensures Encode("") == ""
  {
  }

  lemma RenderTwo(name: string, tail: string)
    ensures Render([Hole(name), Text(tail)]) == Placeholder(name) + tail
  {
    assert [Hole(name), Text(tail)][1..] == [Text(tail)] && [Text(tail)][1..] == [];
    assert Render([Text(tail)]) == tail + Render([]);
    assert tail + "" == tail;
  }

  lemma SubstituteTwo(p: Param, q: Param, tail: string)
    ensures Substituted([Hole(p.key), Text(tail)], [p, q]) == Encode(p.value) + tail
  {
    hide Encode;
    assert [Hole(p.key), Text(tail)][1..] == [Text(tail)] && [Text(tail)][1..] == [];
    assert Substituted([Text(tail)], [p, q]) == tail + Substituted([], [p, q]);
    assert tail + "" == tail;
  }

  /**
   A value comes out unchanged, in every flat template and with all companions
   that open no brace, exactly if it is harmless: every brace that it opens is
   followed by another one, or is closed and spells its own placeholder.
   */
  lemma SafeIffHarmless(p: Param)
    requires BraceFree(p.key)
    ensures Safe(p) <==> Harmless(Encode(p.value), p.key)
  {
    hide Harmless, SafeIn;
    if Harmless(Encode(p.value), p.key) {
      HarmlessIsSafe(p);
    } else {
      var segments, params := Unsafe(p);
    }
  }

  lemma {:induction false} OpenIsShort(s: string, own: string)
    requires Harmless(s, own) && '{' in s
    ensures |own| < |s|
  {
    if s[0] == '{' && FirstBrace(s[1..]) < |s[1..]| && s[1..][FirstBrace(s[1..])] != '{' {
      assert s[1..][..FirstBrace(s[1..])] == own;
    } else {
      assert s == [s[0]] + s[1..];
      OpenIsShort(s[1..], own);
    }
  }

  /** So a value is safe under every key exactly if it opens no brace. */
  lemma SafeUnderEveryKey(value: string)
    ensures (forall key | BraceFree(key) :: Safe(Param(key, value))) <==> '{' !in value
  {
    hide Harmless, Safe;
    var encoded := Encode(value);
    EncodeBraces(value);
    if '{' in value {
      var long := seq(|encoded|, _ => 'x');
      SafeIffHarmless(Param(long, value));
      if Harmless(encoded, long) { OpenIsShort(encoded, long); }
    } else {
      forall key | BraceFree(key) ensures Safe(Param(key, value)) {
        PlainIsHarmless(encoded, key);
        SafeIffHarmless(Param(key, value));
      }
    }
  }

  /** Under one key a value may open a brace and be safe: it may spell its own placeholder. */
  lemma OwnPlaceholderIsSafe(key: string)
    requires PlainName(key)
    ensures '{' in Placeholder(key) && Safe(Param(key, Placeholder(key)))
  {
    hide Safe;
    EncodePlain(Placeholder(key));
    var rest := key + "}";
    assert Placeholder(key)[1..] == rest;
    FirstBraceAt(key, "}");
    PlainIsHarmless(rest, key);
    assert rest[..|key|] == key;
    SafeIffHarmless(Param(key, Placeholder(key)));
  }

  lemma {:induction false} LookupMember(params: seq<Param>, name: string, value: string)
    requires ProperParams(params)
    ensures Lookup(params, name) == Some(value) <==> Param(name, value) in params
  {
    if params != [] {
      LookupMember(params[1..], name, value);
      assert params == [params[0]] + params[1..];
    }
  }

  lemma {:induction false} SameLookups(segments: seq<Segment>, params: seq<Param>, params': seq<Param>)
    requires forall name :: Lookup(params, name) == Lookup(params', name)
    ensures Substituted(segments, params) == Substituted(segments, params')
  {
    hide Lookup, Encode;
    if segments != [] { SameLookups(segments[1..], params, params'); }
  }

  /** What stands in the place of a hole decodes to the parameter's value. */
  lemma HoleReadsBack(key: string, value: string, params: seq<Param>)
    requires BraceFree(key) && ProperParams(params) && Param(key, value) in params
    requires (forall i | 0 <= i < |value| :: Byte(value[i])) && !HoldsEscape(value)
    ensures Decode(Resolved(Placeholder(key), params)) == value
  {
    hide Resolved, Encode, Decode, ProperParams, HoldsEscape;
    var segments := [Hole(key)];
    RenderOne(key);
    ResolvedIsSubstituted(segments, params);
    LookupMember(params, key, value);
    SubstituteOne(key, value, params);
    ValueReadsBack(value);
  }

  lemma RenderOne(key: string)
    ensures Render([Hole(key)]) == Placeholder(key)
  {
    assert [Hole(key)][1..] == [];
    assert Placeholder(key) + "" == Placeholder(key);
  }

  lemma SubstituteOne(key: string, value: string, params: seq<Param>)
    requires Lookup(params, key) == Some(value)
    ensures Substituted([Hole(key)], params) == Encode(value)
  {
    hide Encode;
    assert [Hole(key)][1..] == [];
    assert Encode(value) + "" == Encode(value);
  }

  lemma RenderCons(segment: Segment, rest: seq<Segment>, params: seq<Param>)
    ensures Render([segment] + rest) == Render([segment]) + Render(rest)
    ensures Substituted([segment] + rest, params) == Substituted([segment], params) + Substituted(rest, params)
  {
    assert ([segment] + rest)[1..] == rest && [segment][1..] == [];
    assert Render([]) == "" && Substituted([], params) == "";
  }

  lemma RenderText(text: string, params: seq<Param>)
    ensures Render([Text(text)]) == text && Substituted([Text(text)], params) == text
  {
    assert [Text(text)][1..] == [] && text + "" == text;
  }

  /** Two texts and two holes, the template of the documented example. */
  lemma TwoHoles(a: string, i: string, b: string, j: string, params: seq<Param>, v: string, w: string)
    requires Lookup(params, i) == Some(v) && Lookup(params, j) == Some(w)
    ensures Render([Text(a), Hole(i), Text(b), Hole(j)]) == a + Placeholder(i) + b + Placeholder(j)
    ensures Substituted([Text(a), Hole(i), Text(b), Hole(j)], params) == a + Encode(v) + b + Encode(w)
  {
    hide Render, Substituted, Encode, Lookup, Placeholder;
    var three, two := [Hole(i), Text(b), Hole(j)], [Text(b), Hole(j)];
    assert [Text(a), Hole(i), Text(b), Hole(j)] == [Text(a)] + three && three == [Hole(i)] + two;
    assert two == [Text(b)] + [Hole(j)];
    RenderCons(Text(a), three, params);
    RenderCons(Hole(i), two, params);
    RenderCons(Text(b), [Hole(j)], params);
    RenderText(a, params);
    RenderText(b, params);
    RenderOne(i);
    RenderOne(j);
    SubstituteOne(i, v, params);
    SubstituteOne(j, w, params);
    assert a + (Placeholder(i) + (b + Placeholder(j))) == a + Placeholder(i) + b + Placeholder(j);
    assert a + (Encode(v) + (b + Encode(w))) == a + Encode(v) + b + Encode(w);
  }

  /** The documented example: two parameters of a video's path. */
  lemma VideoExample(id: string, quality: string)
    requires '{' !in id && '{' !in quality
    ensures var params := [Param("id", id), Param("quality", quality)];
            Resolved("https://cdn.example.com/v/" + "{id}" + "/res_" + "{quality}", params) ==
            "https://cdn.example.com/v/" + Encode(id) + "/res_" + Encode(quality)
  {
    hide Resolved, Encode, Render, Substituted, Flat, ProperParams, Lookup;
    var params := [Param("id", id), Param("quality", quality)];
    VideoParams(id, quality);
    VideoLookups(id, quality);
    VideoFlat("https://cdn.example.com/v/", "/res_");
    TwoHoles("https://cdn.example.com/v/", "id", "/res_", "quality", params, id, quality);
    ResolvedIsSubstituted([Text("https://cdn.example.com/v/"), Hole("id"), Text("/res_"), Hole("quality")], params);
    assert Placeholder("id") == "{id}" && Placeholder("quality") == "{quality}";
  }

  lemma VideoParams(id: string, quality: string)
    requires '{' !in id && '{' !in quality
    ensures ProperParams([Param("id", id), Param("quality", quality)])
  {
    hide Encode, Harmless;
    EncodeBraces(id);
    EncodeBraces(quality);
    PlainIsHarmless(Encode(id), "id");
    PlainIsHarmless(Encode(quality), "quality");
    assert "id" != "quality" by { assert |"id"| == 2; }
  }

  lemma VideoFlat(a: string, b: string)
    requires '{' !in a && '{' !in b
    ensures Flat([Text(a), Hole("id"), Text(b), Hole("quality")])
  {
  }

  lemma VideoLookups(id: string, quality: string)
    ensures var params := [Param("id", id), Param("quality", quality)];
            Lookup(params, "id") == Some(id) && Lookup(params, "quality") == Some(quality)
  {
    var params := [Param("id", id), Param("quality", quality)];
    assert params[1..] == [Param("quality", quality)];
    assert "id" != "quality" by { assert |"id"| == 2; }
  }

  /** And the order of the parameters does not matter. */
  lemma OrderIrrelevant(segments: seq<Segment>, params: seq<Param>, params': seq<Param>)
    requires Flat(segments) && ProperParams(params) && ProperParams(params')
    requires forall p :: p in params <==> p in params'
    ensures Resolved(Render(segments), params) == Resolved(Render(segments), params')
  {
    hide Resolved, Substituted;
    ResolvedIsSubstituted(segments, params);
    ResolvedIsSubstituted(segments, params');
    forall name ensures Lookup(params, name) == Lookup(params', name) {
      if Lookup(params, name).Some? {
        LookupMember(params, name, Lookup(params, name).value);
        LookupMember(params', name, Lookup(params, name).value);
      } else if Lookup(params', name).Some? {
        LookupMember(params, name, Lookup(params', name).value);
        LookupMember(params', name, Lookup(params', name).value);
      }
    }
    SameLookups(segments, params, params');
  }

  lemma {:induction false} EncodePlain(value: string)
    requires forall c | c in value :: !Encoded(c)
    ensures Encode(value) == value
  {
    if value != "" {
      EncodePlain(value[1..]);
      assert value == [value[0]] + value[1..];
    }
  }

  predicate PlainName(name: string) { BraceFree(name) && forall c | c in name :: !Encoded(c) }

  lemma ReplaceAlone(name: string, key: string, filler: string)
    requires BraceFree(name) && BraceFree(key)
    ensures Replace(Placeholder(name), Placeholder(key), filler) == if name == key then filler else Placeholder(name)
  {
    ReplaceAtHole(name, "", key, filler);
    assert Placeholder(name) + "" == Placeholder(name);
  }

  lemma TwoParams(template: string, p: Param, q: Param)
    ensures Resolved(template, [p, q]) ==
            Replace(Replace(template, Placeholder(p.key), Encode(p.value)), Placeholder(q.key), Encode(q.value))
  {
    assert [p, q][1..] == [q];
    var once := Replace(template, Placeholder(p.key), Encode(p.value));
    assert Resolved(once, [q]) == Resolved(Replace(once, Placeholder(q.key), Encode(q.value)), []);
  }

  /** Braces in a value are not encoded: a value that spells another placeholder makes the order matter. */
  lemma BracesInValuesMatter(a: string, b: string, value: string)
    requires PlainName(a) && PlainName(b) && a != b && Encode(value) != Placeholder(b)
    ensures var p, q := Param(a, Placeholder(b)), Param(b, value);
            Resolved(Placeholder(a), [p, q]) == Encode(value) && Resolved(Placeholder(a), [q, p]) == Placeholder(b)
  {
    hide Resolved, Replace, Encode;
    var p, q := Param(a, Placeholder(b)), Param(b, value);
    TwoParams(Placeholder(a), p, q);
    TwoParams(Placeholder(a), q, p);
    EncodePlain(Placeholder(b));
    ReplaceAlone(a, a, Placeholder(b));
    ReplaceAlone(b, b, Encode(value));
    ReplaceAlone(a, b, Encode(value));
  }

  /** Nested placeholders do the same. */
  lemma NestedTemplatesMatter(a: string, b: string, value: string)
    requires PlainName(a) && PlainName(b) && a != b && Encode(value) != Placeholder(b)
    ensures var template, p, q := "{" + Placeholder(a) + "}", Param(a, b), Param(b, value);
            Resolved(template, [p, q]) == Encode(value) && Resolved(template, [q, p]) == Placeholder(b)
  {
    hide Resolved;
    var template, p, q := "{" + Placeholder(a) + "}", Param(a, b), Param(b, value);
    TwoParams(template, p, q);
    TwoParams(template, q, p);
    EncodePlain(b);
    ReplaceNested(a, a, b);
    ReplaceAlone(b, b, Encode(value));
    ReplaceNested(a, b, Encode(value));
    assert "{" + b + "}" == Placeholder(b);
  }

  lemma ReplaceNested(name: string, key: string, filler: string)
    requires BraceFree(name) && BraceFree(key)
    ensures Replace("{" + Placeholder(name) + "}", Placeholder(key), filler) ==
            "{" + (if name == key then filler else Placeholder(name)) + "}"
  {
    var s, pattern := "{" + Placeholder(name) + "}", Placeholder(key);
    assert s[1] == '{' && pattern[1] != '{' && !(pattern <= s);
    assert s[1..] == Placeholder(name) + "}";
    ReplaceAtHole(name, "}", key, filler);
    PlainIsInert("}", key);
    ReplaceSkips("}", "", key, filler);
    assert "}" + "" == "}";
  }
}
