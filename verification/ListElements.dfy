/**
 The elements of comma-separated headers, said without splitting or trimming:
 where an element stands in a line, and what may surround it.
 */
module ListElements {
  import opened Text

  /** `pre` ends before an element, `post` begins after one. */
  predicate Bounded(pre: string, post: string) {
    (pre == "" || pre[|pre| - 1] == ',') && (post == "" || post[0] == ',')
  }

  /** The line holds the element `t`, with blanks around it. */
  predicate Placed(line: string, pre: string, a: string, t: string, b: string, post: string) {
    && line == pre + a + t + b + post && Bounded(pre, post)
    && AllBlank(a) && AllBlank(b) && Edged(t) && ',' !in t
  }

  ghost predicate Holds(line: string, t: string) {
    exists pre, a, b, post :: Placed(line, pre, a, t, b, post)
  }

  /** Some readable line of the header holds the element `t`. */
  ghost predicate HasElement(values: seq<string>, t: string) {
    exists v | v in values :: Readable(v) && Holds(v, t)
  }

  lemma SplitFirst(e: string, post: string)
    requires (post == "" || post[0] == ',') && ',' !in e
    ensures e in Split(e + post, ',')
  {
    hide Split;
    SplitWhole(e, ',');
    if post != "" {
      assert e + post == e + [','] + post[1..];
      SplitAcross(e, post[1..], ',');
    } else {
      assert e + post == e;
    }
  }

  lemma SplitPlaced(pre: string, e: string, post: string)
    requires Bounded(pre, post) && ',' !in e
    ensures e in Split(pre + e + post, ',')
  {
    hide Split;
    SplitFirst(e, post);
    if pre != "" {
      var front := pre[..|pre| - 1];
      assert pre + e + post == front + [','] + (e + post);
      SplitAcross(front, e + post, ',');
    } else {
      assert pre + e + post == e + post;
    }
  }

  /** The part at the front of a split runs up to the first separator. */
  lemma {:induction false} SplitFront(s: string, d: char) returns (post: string)
    ensures s == Split(s, d)[0] + post && (post == "" || post[0] == d)
    ensures post == "" ==> Split(s, d)[1..] == []
    ensures post != "" ==> Split(s, d)[1..] == Split(post[1..], d)
  {
    if s == "" {
      post := "";
    } else if s[0] == d {
      post := s;
    } else {
      post := SplitFront(s[1..], d);
      assert Split(s, d)[1..] == Split(s[1..], d)[1..];
    }
  }

  lemma {:induction false} SplitShape(s: string, e: string) returns (pre: string, post: string)
    requires e in Split(s, ',')
    ensures s == pre + e + post && Bounded(pre, post)
    decreases |s|
  {
    hide Split;
    var parts := Split(s, ',');
    var rest := SplitFront(s, ',');
    if e == parts[0] {
      pre, post := "", rest;
      assert s == "" + e + rest;
    } else {
      assert e in parts[1..];
      var pre': string;
      pre', post := SplitShape(rest[1..], e);
      pre := parts[0] + [','] + pre';
      assert rest == [','] + (pre' + e + post);
      assert s == parts[0] + [','] + (pre' + e + post);
      assert pre + e + post == parts[0] + [','] + (pre' + e + post);
    }
  }

  lemma BlankCommas(a: string)
    requires AllBlank(a)
    ensures ',' !in a
  {
  }

  lemma HoldsIff(line: string, t: string)
    ensures (exists e | e in Split(line, ',') :: Trim(e) == t) <==> Holds(line, t)
  {
    hide Trim, Split, AllBlank, Edged;
    if e :| e in Split(line, ',') && Trim(e) == t {
      var pre, post := SplitShape(line, e);
      var a, b := TrimShape(e);
      SplitFree(line, ',', e);
      assert pre + e + post == pre + a + t + b + post;
      assert forall c | c in t :: c in e;
      assert Placed(line, pre, a, t, b, post);
    }
    if Holds(line, t) {
      var pre, a, b, post :| Placed(line, pre, a, t, b, post);
      var e := a + t + b;
      BlankCommas(a);
      BlankCommas(b);
      assert pre + e + post == line;
      SplitPlaced(pre, e, post);
      TrimPadded(a, t, b);
    }
  }

  lemma {:induction false} ElementIff(values: seq<string>, e: string)
    ensures e in Elements(values) <==> exists v | v in values :: Readable(v) && e in Split(v, ',')
  {
    if values != [] {
      ElementIff(values[1..], e);
      assert values == [values[0]] + values[1..];
    }
  }

  /**
   The trimmed elements of a header are exactly those that stand between its
   commas, without the blanks around them.
   */
  lemma HasElementIff(values: seq<string>, t: string)
    ensures (exists e | e in Elements(values) :: Trim(e) == t) <==> HasElement(values, t)
  {
    hide Holds, Trim, Readable, Split, Elements;
    if e :| e in Elements(values) && Trim(e) == t {
      ElementIff(values, e);
      var v :| v in values && Readable(v) && e in Split(v, ',');
      HoldsIff(v, t);
    }
    if v :| v in values && Readable(v) && Holds(v, t) {
      HoldsIff(v, t);
      var e :| e in Split(v, ',') && Trim(e) == t;
      ElementIff(values, e);
    }
  }
}
