/** Power of two choices, with selection and increment taken as one step. */
module PowerOfTwo {
  import opened Basics

  /** The less loaded of two drawn endpoints; the first one on a tie. */
  function Choose(i: nat, load1: nat, j: nat, load2: nat): nat { if load1 <= load2 then i else j }

  /** Two distinct draws, or the only endpoint. */
  predicate LegalDraw(count: nat, draw: (nat, nat)) {
    draw.0 < count && draw.1 < count && (count > 1 ==> draw.0 != draw.1)
  }

  function P2cSelect(loads: seq<nat>, draw: (nat, nat)): (i: nat)
    requires LegalDraw(|loads|, draw)
    ensures i < |loads|
  {
    if |loads| == 1 then 0 else Choose(draw.0, loads[draw.0], draw.1, loads[draw.1])
  }

  /** Of two drawn endpoints the one with the lower load is taken, the first one if they are level. */
  lemma LessLoaded(loads: seq<nat>, draw: (nat, nat))
    requires LegalDraw(|loads|, draw) && |loads| > 1
    ensures P2cSelect(loads, draw) in {draw.0, draw.1}
    ensures P2cSelect(loads, draw) == draw.0 <==> loads[draw.0] <= loads[draw.1]
  {
  }

  function Admit(loads: seq<nat>, draw: (nat, nat)): seq<nat>
    requires LegalDraw(|loads|, draw)
  {
    var i := P2cSelect(loads, draw);
    loads[i := loads[i] + 1]
  }

  /** The loads after a sequence of admissions, starting idle. */
  function Admitted(count: nat, draws: seq<(nat, nat)>): (loads: seq<nat>)
    requires forall d | d in draws :: LegalDraw(count, d)
    ensures |loads| == count
  {
    if draws == [] then seq(count, _ => 0)
    else Admit(Admitted(count, draws[..|draws| - 1]), draws[|draws| - 1])
  }

  /** Endpoint `j` is another one and not far behind `i`. */
  predicate Rivals(loads: seq<nat>, i: nat, j: nat) {
    i < |loads| && j < |loads| && i != j && loads[j] + 1 >= loads[i]
  }

  /** No endpoint is ever alone at the top: another one has at least its load minus one. */
  lemma {:induction false} NeverAloneAtTheTop(count: nat, draws: seq<(nat, nat)>, i: nat)
    requires i < count && count >= 2
    requires forall d | d in draws :: LegalDraw(count, d)
    ensures exists j: nat :: Rivals(Admitted(count, draws), i, j)
  {
    if draws == [] {
      assert Rivals(Admitted(count, draws), i, if i == 0 then 1 else 0);
    } else {
      var front, draw := draws[..|draws| - 1], draws[|draws| - 1];
      var before, after := Admitted(count, front), Admitted(count, draws);
      assert draw in draws;
      var chosen := P2cSelect(before, draw);
      if i == chosen {
        assert Rivals(after, i, if chosen == draw.0 then draw.1 else draw.0);
      } else {
        NeverAloneAtTheTop(count, front, i);
        var j: nat :| Rivals(before, i, j);
        assert Rivals(after, i, j);
      }
    }
  }

  /** Two endpoints always split the requests within one of each other. */
  lemma TwoSplitEvenly(draws: seq<(nat, nat)>)
    requires forall d | d in draws :: LegalDraw(2, d)
    ensures Admitted(2, draws)[0] <= Admitted(2, draws)[1] + 1 && Admitted(2, draws)[1] <= Admitted(2, draws)[0] + 1
  {
    NeverAloneAtTheTop(2, draws, 0);
    NeverAloneAtTheTop(2, draws, 1);
    var loads := Admitted(2, draws);
    var j0: nat :| Rivals(loads, 0, j0);
    var j1: nat :| Rivals(loads, 1, j1);
  }

  /** Every admission is counted once. */
  lemma {:induction false} LoadsAddUp(count: nat, draws: seq<(nat, nat)>)
    requires forall d | d in draws :: LegalDraw(count, d)
    ensures Sum(Admitted(count, draws), (load: nat) => load) == |draws|
  {
    var id := (load: nat) => load;
    if draws == [] {
      SumZero(Admitted(count, draws), id);
    } else {
      var front, draw := draws[..|draws| - 1], draws[|draws| - 1];
      LoadsAddUp(count, front);
      var before := Admitted(count, front);
      assert draw in draws;
      var chosen := P2cSelect(before, draw);
      SumUpdate(before, chosen, before[chosen] + 1, id);
    }
  }
}
