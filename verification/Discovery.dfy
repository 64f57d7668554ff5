/** The list of discovered endpoints, as a fold of the changes and as the object that the discovery task updates. */
module Discovery {
  import opened Basics

  type Key = string

  datatype Change = Insert(key: Key, target: string) | Remove(key: Key)

  /** A listed endpoint; `birth` is the position in the log of the Insert that made it. */
  datatype Entry = Entry(key: Key, target: string, birth: nat)

  // ----- the fold

  /** The position of the first entry with this key, or the length. */
  function IndexOf(list: seq<Entry>, key: Key): (i: nat)
    ensures i <= |list| && (i < |list| ==> list[i].key == key)
    ensures forall a | 0 <= a < i :: list[a].key != key
  {
    if list == [] || list[0].key == key then 0 else 1 + IndexOf(list[1..], key)
  }

  /** Replace the entry with this key in place, or append. */
  function Replaced(list: seq<Entry>, entry: Entry): seq<Entry> {
    var i := IndexOf(list, entry.key);
    if i < |list| then list[i := entry] else list + [entry]
  }

  function Without(list: seq<Entry>, key: Key): seq<Entry> {
    if list == [] then []
    else Without(list[..|list| - 1], key) + (if list[|list| - 1].key == key then [] else [list[|list| - 1]])
  }

  function Applied(list: seq<Entry>, change: Change, birth: nat): seq<Entry> {
    match change
    case Insert(key, target) => Replaced(list, Entry(key, target, birth))
    case Remove(key) => Without(list, key)
  }

  /** The endpoint list after a log of changes. */
  function Fold(log: seq<Change>): seq<Entry> {
    if log == [] then [] else Applied(Fold(log[..|log| - 1]), log[|log| - 1], |log| - 1)
  }

  /** The changes among the events. */
  function Changes(events: seq<Option<Change>>): seq<Change> {
    if events == [] then []
    else
      Changes(events[..|events| - 1]) + (match events[|events| - 1] case Some(change) => [change] case None => [])
  }

  lemma {:induction false} ChangesConcat(a: seq<Option<Change>>, b: seq<Option<Change>>)
    ensures Changes(a + b) == Changes(a) + Changes(b)
  {
    if b == [] {
      assert a + b == a;
    } else {
      assert (a + b)[..|a + b| - 1] == a + b[..|b| - 1];
      ChangesConcat(a, b[..|b| - 1]);
    }
  }

  // ----- what the list is, said without folding

  /** The change at `i` is the last one about its key, and an Insert. */
  ghost predicate BornAt(log: seq<Change>, key: Key, i: nat) {
    i < |log| && log[i].Insert? && log[i].key == key && forall j | i < j < |log| :: log[j].key != key
  }

  /** The change at `i` is the first Insert of the key since it was last removed. */
  ghost predicate ArrivedAt(log: seq<Change>, key: Key, i: nat) {
    && i < |log| && log[i].Insert? && log[i].key == key
    && (forall j | i < j < |log| :: log[j] != Remove(key))
    && (forall j | 0 <= j < i && log[j].key == key && log[j].Insert? :: exists m | j < m < i :: log[m] == Remove(key))
  }

  ghost predicate HasArrived(log: seq<Change>, key: Key) { exists i: nat :: ArrivedAt(log, key, i) }

  ghost predicate Listed(list: seq<Entry>, key: Key) { exists a | 0 <= a < |list| :: list[a].key == key }

  ghost predicate UniqueKeys(list: seq<Entry>) {
    forall a, b | 0 <= a < b < |list| :: list[a].key != list[b].key
  }

  /** Every entry is made by the last change about its key, and every key whose last change is an Insert is listed. */
  ghost predicate Current(log: seq<Change>, list: seq<Entry>) {
    && (forall a | 0 <= a < |list| ::
          BornAt(log, list[a].key, list[a].birth) && log[list[a].birth].target == list[a].target)
    && (forall key, i: nat | BornAt(log, key, i) :: Listed(list, key))
  }

  /** The entries stand in the order in which their keys arrived. */
  ghost predicate InArrivalOrder(log: seq<Change>, list: seq<Entry>) {
    && (forall a | 0 <= a < |list| :: HasArrived(log, list[a].key))
    && (forall a, b, i: nat, j: nat |
          0 <= a < b < |list| && ArrivedAt(log, list[a].key, i) && ArrivedAt(log, list[b].key, j) :: i < j)
  }

  lemma {:induction false} WithoutEntry(list: seq<Entry>, key: Key, a: nat) returns (a': nat)
    requires a < |Without(list, key)|
    ensures a <= a' < |list| && list[a'] == Without(list, key)[a] && list[a'].key != key
  {
    var front := list[..|list| - 1];
    if a < |Without(front, key)| {
      a' := WithoutEntry(front, key, a);
    } else {
      a' := |list| - 1;
      WithoutLength(front, key);
    }
  }

  lemma {:induction false} WithoutLength(list: seq<Entry>, key: Key)
    ensures |Without(list, key)| <= |list|
  {
    if list != [] { WithoutLength(list[..|list| - 1], key); }
  }

  lemma {:induction false} WithoutPair(list: seq<Entry>, key: Key, a: nat, b: nat) returns (a': nat, b': nat)
    requires a < b < |Without(list, key)|
    ensures a' < b' < |list|
    ensures list[a'] == Without(list, key)[a] && list[b'] == Without(list, key)[b]
  {
    var front := list[..|list| - 1];
    if b < |Without(front, key)| {
      a', b' := WithoutPair(front, key, a, b);
    } else {
      a' := WithoutEntry(front, key, a);
      b' := |list| - 1;
    }
  }

  lemma {:induction false} WithoutKeeps(list: seq<Entry>, key: Key, a: nat)
    requires a < |list| && list[a].key != key
    ensures list[a] in Without(list, key)
  {
    if a < |list| - 1 { WithoutKeeps(list[..|list| - 1], key, a); }
  }

  lemma ArrivedOnce(log: seq<Change>, key: Key, i: nat, j: nat)
    requires ArrivedAt(log, key, i) && ArrivedAt(log, key, j)
    ensures i == j
  {
  }

  /** How one more change moves the births of a key. */
  lemma BornNext(log: seq<Change>, change: Change, key: Key, i: nat)
    ensures BornAt(log + [change], key, i) <==>
            if change.key == key then change.Insert? && i == |log| else BornAt(log, key, i)
  {
    var log' := log + [change];
    assert log'[|log|] == change;
    assert forall j | 0 <= j < |log| :: log'[j] == log[j];
  }

  /** How one more change moves the arrivals of a key. */
  lemma ArrivedNext(log: seq<Change>, change: Change, key: Key, i: nat)
    ensures change.key != key ==> (ArrivedAt(log + [change], key, i) <==> ArrivedAt(log, key, i))
    ensures change == Remove(key) ==> !ArrivedAt(log + [change], key, i)
    ensures change.key == key && change.Insert? && ArrivedAt(log, key, i) ==> ArrivedAt(log + [change], key, i)
  {
    var log' := log + [change];
    assert log'[|log|] == change;
    assert forall j | 0 <= j < |log| :: log'[j] == log[j];
    if i < |log| && change.key != key {
      forall j | 0 <= j < i && log[j].key == key && log[j].Insert?
        ensures (exists m | j < m < i :: log'[m] == Remove(key)) <==> (exists m | j < m < i :: log[m] == Remove(key))
      {
      }
    }
  }

  /** Every Insert of the key was followed by a Remove. */
  ghost predicate Departed(log: seq<Change>, key: Key) {
    forall j | 0 <= j < |log| && log[j].key == key && log[j].Insert? ::
      exists m | j < m < |log| :: log[m] == Remove(key)
  }

  lemma DepartedNext(log: seq<Change>, change: Change, key: Key)
    requires (Departed(log, key) && change.key != key) || change == Remove(key)
    ensures Departed(log + [change], key)
  {
    var log' := log + [change];
    assert log'[|log|] == change;
    forall j | 0 <= j < |log'| && log'[j].key == key && log'[j].Insert?
      ensures exists m | j < m < |log'| :: log'[m] == Remove(key)
    {
      if change.key != key {
        var m :| j < m < |log| && log[m] == Remove(key);
        assert log'[m] == Remove(key);
      }
    }
  }

  lemma ArrivesAgain(log: seq<Change>, key: Key, target: string)
    requires Departed(log, key)
    ensures ArrivedAt(log + [Insert(key, target)], key, |log|)
  {
    var log' := log + [Insert(key, target)];
    forall j | 0 <= j < |log| && log'[j].key == key && log'[j].Insert?
      ensures exists m | j < m < |log| :: log'[m] == Remove(key)
    {
      var m :| j < m < |log| && log[m] == Remove(key);
      assert log'[m] == Remove(key);
    }
  }

  ghost predicate FoldOk(log: seq<Change>, list: seq<Entry>) {
    && UniqueKeys(list) && Current(log, list) && InArrivalOrder(log, list)
    && forall key :: !Listed(list, key) ==> Departed(log, key)
  }

  lemma RemoveOk(log: seq<Change>, list: seq<Entry>, key: Key)
    requires FoldOk(log, list)
    ensures FoldOk(log + [Remove(key)], Without(list, key))
  {
    var log', list' := log + [Remove(key)], Without(list, key);
    assert UniqueKeys(list') && InArrivalOrder(log', list') by {
      RemoveKeepsOrder(log, list, key);
    }
    forall a | 0 <= a < |list'|
      ensures BornAt(log', list'[a].key, list'[a].birth) && log'[list'[a].birth].target == list'[a].target
    {
      var a' := WithoutEntry(list, key, a);
      BornNext(log, Remove(key), list'[a].key, list'[a].birth);
    }
    forall k | k != key && Listed(list, k) ensures Listed(list', k) {
      var a :| 0 <= a < |list| && list[a].key == k;
      WithoutKeeps(list, key, a);
      var a' :| 0 <= a' < |list'| && list'[a'] == list[a];
    }
    forall k, i: nat | BornAt(log', k, i) ensures Listed(list', k) {
      BornNext(log, Remove(key), k, i);
    }
    forall k | !Listed(list', k) ensures Departed(log', k) {
      DepartedNext(log, Remove(key), k);
    }
  }

  lemma RemoveKeepsOrder(log: seq<Change>, list: seq<Entry>, key: Key)
    requires UniqueKeys(list) && InArrivalOrder(log, list)
    ensures UniqueKeys(Without(list, key)) && InArrivalOrder(log + [Remove(key)], Without(list, key))
  {
    var log', list' := log + [Remove(key)], Without(list, key);
    forall a, b | 0 <= a < b < |list'| ensures list'[a].key != list'[b].key {
      var a', b' := WithoutPair(list, key, a, b);
    }
    forall a | 0 <= a < |list'| ensures HasArrived(log', list'[a].key) {
      var a' := WithoutEntry(list, key, a);
      var i: nat :| ArrivedAt(log, list[a'].key, i);
      ArrivedNext(log, Remove(key), list'[a].key, i);
    }
    forall a, b, i: nat, j: nat |
      0 <= a < b < |list'| && ArrivedAt(log', list'[a].key, i) && ArrivedAt(log', list'[b].key, j)
      ensures i < j
    {
      var a', b' := WithoutPair(list, key, a, b);
      ArrivedNext(log, Remove(key), list'[a].key, i);
      ArrivedNext(log, Remove(key), list'[b].key, j);
    }
  }

  lemma InsertOk(log: seq<Change>, list: seq<Entry>, key: Key, target: string)
    requires FoldOk(log, list)
    ensures FoldOk(log + [Insert(key, target)], Replaced(list, Entry(key, target, |log|)))
  {
    hide ArrivedAt, HasArrived, Departed, BornAt;
    var change := Insert(key, target);
    var log', list' := log + [change], Replaced(list, Entry(key, target, |log|));
    InsertKeepsOrder(log, list, key, target);
    InsertKeepsCurrent(log, list, key, target);
    forall k | !Listed(list', k) ensures Departed(log', k) {
      InsertListed(list, Entry(key, target, |log|), k);
      DepartedNext(log, change, k);
    }
  }

  lemma InsertListed(list: seq<Entry>, entry: Entry, k: Key)
    ensures Listed(Replaced(list, entry), k) <==> Listed(list, k) || k == entry.key
  {
    var list' := Replaced(list, entry);
    assert list'[IndexOf(list, entry.key)] == entry;
    if Listed(list, k) {
      var a :| 0 <= a < |list| && list[a].key == k;
      assert list'[a].key == k;
    }
  }

  lemma InsertKeepsCurrent(log: seq<Change>, list: seq<Entry>, key: Key, target: string)
    requires UniqueKeys(list) && Current(log, list)
    ensures UniqueKeys(Replaced(list, Entry(key, target, |log|)))
    ensures Current(log + [Insert(key, target)], Replaced(list, Entry(key, target, |log|)))
  {
    var change := Insert(key, target);
    var log', list' := log + [change], Replaced(list, Entry(key, target, |log|));
    var at := IndexOf(list, key);
    forall a | 0 <= a < |list'|
      ensures BornAt(log', list'[a].key, list'[a].birth) && log'[list'[a].birth].target == list'[a].target
    {
      if a != at { assert list'[a] == list[a] && list[a].key != key; }
      BornNext(log, change, list'[a].key, list'[a].birth);
    }
    forall k, i: nat | BornAt(log', k, i) ensures Listed(list', k) {
      BornNext(log, change, k, i);
      InsertListed(list, Entry(key, target, |log|), k);
    }
  }

  lemma InsertKeepsOrder(log: seq<Change>, list: seq<Entry>, key: Key, target: string)
    requires FoldOk(log, list)
    ensures InArrivalOrder(log + [Insert(key, target)], Replaced(list, Entry(key, target, |log|)))
  {
    hide ArrivedAt, Departed, Current;
    var log', list' := log + [Insert(key, target)], Replaced(list, Entry(key, target, |log|));
    forall a | 0 <= a < |list'| ensures HasArrived(log', list'[a].key) {
      var i := InsertArrival(log, list, key, target, a);
    }
    forall a, b, i: nat, j: nat |
      0 <= a < b < |list'| && ArrivedAt(log', list'[a].key, i) && ArrivedAt(log', list'[b].key, j)
      ensures i < j
    {
      var i' := InsertArrival(log, list, key, target, a);
      var j' := InsertArrival(log, list, key, target, b);
      ArrivedOnce(log', list'[a].key, i, i');
      ArrivedOnce(log', list'[b].key, j, j');
      if b == |list| { ArrivedBefore(log, list[a].key, i'); }
    }
  }

  lemma ArrivedBefore(log: seq<Change>, key: Key, i: nat)
    requires ArrivedAt(log, key, i)
    ensures i < |log|
  {
  }

  /** An entry keeps its arrival when another is inserted or replaced; an appended one arrives now. */
  lemma InsertArrival(log: seq<Change>, list: seq<Entry>, key: Key, target: string, a: nat) returns (i: nat)
    requires FoldOk(log, list)
    requires a < |Replaced(list, Entry(key, target, |log|))|
    ensures var list' := Replaced(list, Entry(key, target, |log|));
            && ArrivedAt(log + [Insert(key, target)], list'[a].key, i)
            && (if a < |list| then list'[a].key == list[a].key && ArrivedAt(log, list[a].key, i) else i == |log|)
  {
    hide ArrivedAt, Departed, Current, UniqueKeys;
    if a < |list| {
      assert HasArrived(log, list[a].key);
      i :| ArrivedAt(log, list[a].key, i);
      ArrivedNext(log, Insert(key, target), list[a].key, i);
    } else {
      assert !Listed(list, key);
      ArrivesAgain(log, key, target);
      i := |log|;
    }
  }

  /**
   The list is what the log says without folding it: keys are unique, every
   entry was made by the last change about its key, every key whose last change
   is an Insert is listed, and the entries are in order of arrival.
   */
  lemma {:induction false} FoldCharacterised(log: seq<Change>)
    ensures FoldOk(log, Fold(log))
  {
    if log != [] {
      var front, last := log[..|log| - 1], log[|log| - 1];
      FoldCharacterised(front);
      assert front + [last] == log;
      match last
      case Insert(key, target) => InsertOk(front, Fold(front), key, target);
      case Remove(key) => RemoveOk(front, Fold(front), key);
    }
  }
}
