/**
 Comma-separated list headers, parsed: every readable line contributes its
 elements, and every element its words. Proxies rewrite such a header as one
 line; the parsed list is what they must not disturb.
 */
module ListHeaders {
  import opened Text
  import opened Filtering

  function WordLists(elements: seq<string>): seq<seq<string>> {
    if elements == [] then [] else [Words(elements[0])] + WordLists(elements[1..])
  }

  /** The elements of a list header, each as its list of words. */
  function Chain(values: seq<string>): seq<seq<string>> { WordLists(Elements(values)) }

  lemma {:induction false} WordListsConcat(a: seq<string>, b: seq<string>)
    ensures WordLists(a + b) == WordLists(a) + WordLists(b)
  {
    if a == [] {
      assert a + b == b;
    } else {
      assert (a + b)[1..] == a[1..] + b;
      WordListsConcat(a[1..], b);
    }
  }

  lemma LeadingBlank(s: string)
    ensures WordLists(Split(" " + s, ',')) == WordLists(Split(s, ','))
  {
    var parts := Split(s, ',');
    assert (" " + s)[1..] == s;
    WordsSkipBlank(parts[0]);
    assert [' '] + parts[0] == " " + parts[0];
    assert Split(" " + s, ',')[1..] == parts[1..];
  }

  lemma {:induction false} JoinedChain(lines: seq<string>)
    requires lines != [] && forall line | line in lines :: Readable(line)
    ensures WordLists(Split(Join(lines, ", "), ',')) == Chain(lines)
  {
    var first := Split(lines[0], ',');
    var rest := lines[1..];
    assert lines[0] in lines;
    if rest == [] {
      assert Elements(lines) == first + Elements(rest);
      assert first + [] == first;
    } else {
      var tail := Join(rest, ", ");
      assert lines[0] + ", " + tail == lines[0] + [','] + (" " + tail);
      SplitAcross(lines[0], " " + tail, ',');
      WordListsConcat(first, Split(" " + tail, ','));
      LeadingBlank(tail);
      JoinedChain(rest);
      WordListsConcat(first, Elements(rest));
    }
  }

  lemma {:induction false} ElementsConcat(a: seq<string>, b: seq<string>)
    ensures Elements(a + b) == Elements(a) + Elements(b)
  {
    if a == [] {
      assert a + b == b;
    } else {
      assert (a + b)[1..] == a[1..] + b;
      ElementsConcat(a[1..], b);
    }
  }

  lemma ReadableLine(values: seq<string>, own: string)
    requires Readable(own)
    ensures Chain(LineValues(values, own)) == Chain(values) + WordLists(Split(own, ','))
  {
    hide Words;
    var lines := Lines(values) + [own];
    CombinedLine(values, own);
    LinesReadable(values);
    var joined := Join(lines, ", ");
    SingleLine(joined);
    JoinedChain(lines);
    ElementsConcat(Lines(values), [own]);
    ElementsOfLines(values);
    SingleLine(own);
    WordListsConcat(Elements(values), Split(own, ','));
  }

  /**
   What one more line does to the list: a readable one adds its own elements,
   whatever the old lines were; a legal but unreadable one makes the whole list
   unreadable; an illegal one changes nothing.
   */
  lemma LineChain(values: seq<string>, own: string)
    ensures Chain(LineValues(values, own)) ==
            if Readable(own) then Chain(values) + WordLists(Split(own, ','))
            else if ValidValue(own) then []
            else Chain(values)
  {
    hide Readable, Chain, LineValues, ValidValue;
    if Readable(own) {
      ReadableLine(values, own);
    } else if ValidValue(own) {
      UnreadableChain(values, own);
    } else {
      IllegalChangesNothing(values, own);
    }
  }

  lemma UnreadableChain(values: seq<string>, own: string)
    requires !Readable(own) && ValidValue(own)
    ensures Chain(LineValues(values, own)) == []
  {
    hide Readable, ValidValue, Combined, Elements;
    CombinedValid(values, own);
    CombinedUnreadable(values, own);
    UnreadableLine(Combined(values, own));
  }

  lemma IllegalChangesNothing(values: seq<string>, own: string)
    requires !ValidValue(own)
    ensures LineValues(values, own) == values
  {
    var i :| 0 <= i < |own| && !((' ' <= own[i] && own[i] != '\U{7F}') || own[i] == '\t');
    var combined := Combined(values, own);
    assert combined[|combined| - |own| + i] == own[i];
  }

  lemma CombinedUnreadable(values: seq<string>, own: string)
    requires !Readable(own)
    ensures !Readable(Combined(values, own))
  {
    var i :| 0 <= i < |own| && !(Blank(own[i]) || Visible(own[i]));
    var combined := Combined(values, own);
    assert combined[|combined| - |own| + i] == own[i];
  }

  lemma UnreadableLine(line: string)
    requires !Readable(line)
    ensures Elements([line]) == []
  {
    assert Elements([line]) == Elements([line][1..]);
  }

  lemma CombinedValid(values: seq<string>, own: string)
    requires ValidValue(own)
    ensures ValidValue(Combined(values, own))
  {
    LinesReadable(values);
    if Lines(values) != [] {
      JoinReadable(Lines(values), ", ");
    }
  }

  lemma CommaFree(own: string)
    requires ',' !in own
    ensures WordLists(Split(own, ',')) == [Words(own)]
  {
    SplitWhole(own, ',');
    assert [own][1..] == [];
  }

  /** Adding a readable, comma-free line adds exactly its own element to the chain. */
  lemma LineExtendsChain(values: seq<string>, own: string)
    requires Readable(own) && ',' !in own
    ensures Chain(LineValues(values, own)) == Chain(values) + [Words(own)]
  {
    hide Chain, LineValues, Words, WordLists;
    ReadableLine(values, own);
    CommaFree(own);
  }

  lemma SingleLine(line: string)
    requires Readable(line)
    ensures Elements([line]) == Split(line, ',')
  {
    assert Elements([line][1..]) == [];
  }
}
