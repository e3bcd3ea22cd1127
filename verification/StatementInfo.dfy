/** The statement-info parcel: a stack loop that turns a flat list of
    metadata records, each with a depth, into a forest. */
module StatementInfo {
  import opened Bytes
  import opened DataTypes

  /** One record, as far as the tree builder looks at it. */
  datatype Item = Item(layout: nat, contentType: nat, depth: nat, dataType: nat)

  predicate IsFull(it: Item) { it.layout == 1 }

  predicate IsSeparator(it: Item) { it.layout == 4 }

  /** A full struct or array item, which can hold attributes. */
  predicate IsContainer(it: Item) {
    IsFull(it) && BasicType(it.dataType) in {STRUCT, ARRAY, ARRAY_ND}
  }

  // ----- What the forest means

  /** No separator and no full item at or above depth in items[lo..hi]. */
  predicate Inside(items: seq<Item>, depth: nat, lo: nat, hi: nat)
    requires hi <= |items|
  {
    forall k :: lo <= k < hi ==> !IsSeparator(items[k]) && (IsFull(items[k]) ==> items[k].depth > depth)
  }

  /** j is a container still open just before position i. */
  predicate Open(items: seq<Item>, j: nat, i: nat)
    requires i <= |items|
  {
    j < i && IsContainer(items[j]) && Inside(items, items[j].depth, j + 1, i)
  }

  /** j encloses i: since j, through i itself, everything full is deeper. */
  predicate Encloses(items: seq<Item>, j: nat, i: nat)
    requires i < |items|
  {
    IsFull(items[i]) && Open(items, j, i) && items[j].depth < items[i].depth
  }

  /** p is the nearest enclosing container of item i, or there is none. */
  predicate IsParent(items: seq<Item>, i: nat, p: Option<nat>)
    requires i < |items|
  {
    match p
    case None => forall j :: 0 <= j < i ==> !Encloses(items, j, i)
    case Some(j) => j < i && Encloses(items, j, i) && forall k :: j < k < i ==> !Encloses(items, k, i)
  }

  predicate Numbered(it: Item) { it.layout == 1 || it.layout == 2 }

  predicate Receives(it: Item) { Numbered(it) && ParameterMode(it.dataType) != In }

  predicate Transmits(it: Item) { Numbered(it) && ParameterMode(it.dataType) != Out }

  /** How many items of items[..i] after the last separator satisfy p. */
  function CountSince(items: seq<Item>, i: nat, p: Item -> bool): nat
    requires i <= |items|
  {
    if i == 0 || IsSeparator(items[i - 1]) then 0
    else CountSince(items, i - 1, p) + (if p(items[i - 1]) then 1 else 0)
  }

  /** The roots of items[..n] routed to content type c, in order. */
  function Routed(items: seq<Item>, parents: seq<Option<nat>>, n: nat, c: nat): seq<nat>
    requires n <= |items| && n <= |parents|
  {
    if n == 0 then []
    else
      var rest := Routed(items, parents, n - 1, c);
      var it := items[n - 1];
      if !IsSeparator(it) && parents[n - 1].None? && it.contentType == c then rest + [n - 1] else rest
  }

  datatype Forest = Forest(
    parents: seq<Option<nat>>,
    metaItems: seq<seq<nat>>,
    receiveNumbers: seq<Option<nat>>,
    transmitNumbers: seq<Option<nat>>,
    containsFullMeta: bool)

  /** Item k's number: its place among the items that satisfy p since the
      last separator, counted from 1. */
  function NumberOf(items: seq<Item>, k: nat, p: Item -> bool): Option<nat>
    requires k < |items|
  {
    if p(items[k]) then Some(1 + CountSince(items, k, p)) else None
  }

  predicate Parents(items: seq<Item>, n: nat, parents: seq<Option<nat>>)
    requires n <= |items|
  {
    |parents| == n && forall i :: 0 <= i < n ==> IsParent(items, i, parents[i])
  }

  predicate Lists(items: seq<Item>, n: nat, parents: seq<Option<nat>>, metaItems: seq<seq<nat>>)
    requires n <= |items|
  {
    |metaItems| == 6 && |parents| == n
    && forall c :: 0 <= c < 6 ==> metaItems[c] == Routed(items, parents, n, c + 1)
  }

  predicate Numbers(items: seq<Item>, n: nat, numbers: seq<Option<nat>>, p: Item -> bool)
    requires n <= |items|
  {
    |numbers| == n && forall i :: 0 <= i < n ==> numbers[i] == NumberOf(items, i, p)
  }

  /** The declarative meaning of the first n turns of the loop. */
  predicate IsForestOf(items: seq<Item>, n: nat, f: Forest)
    requires n <= |items|
  {
    && Parents(items, n, f.parents)
    && Lists(items, n, f.parents, f.metaItems)
    && Numbers(items, n, f.receiveNumbers, Receives)
    && Numbers(items, n, f.transmitNumbers, Transmits)
    && (f.containsFullMeta <==> exists i :: 0 <= i < n && IsFull(items[i]))
  }

  predicate IsForest(items: seq<Item>, f: Forest) { IsForestOf(items, |items|, f) }

  // ----- The stack

  /** The stack holds exactly the open containers, oldest first. */
  ghost predicate StackOk(items: seq<Item>, stack: seq<nat>, i: nat)
    requires i <= |items|
  {
    && (forall a, b :: 0 <= a < b < |stack| ==> stack[a] < stack[b])
    && (forall a :: 0 <= a < |stack| ==> Open(items, stack[a], i))
    && (forall j :: 0 <= j < i && Open(items, j, i) ==> j in stack)
  }

  // Stack depths are strictly increasing.
  lemma {:induction false} DepthsIncrease(items: seq<Item>, stack: seq<nat>, i: nat, a: nat, b: nat)
    requires i <= |items| && StackOk(items, stack, i) && a < b < |stack|
    ensures items[stack[a]].depth < items[stack[b]].depth
  {
    assert stack[a] < stack[b];
    assert Open(items, stack[a], i) && Open(items, stack[b], i);
  }

  /** The pop step: drop every container that is not above depth. */
  method Pop(items: seq<Item>, stack: seq<nat>, i: nat, depth: nat) returns (rest: seq<nat>)
    requires i <= |items| && StackOk(items, stack, i)
    ensures rest <= stack
    ensures forall a :: 0 <= a < |stack| ==> (a < |rest| <==> items[stack[a]].depth < depth)
  {
    rest := stack;
    while |rest| > 0 && items[rest[|rest| - 1]].depth >= depth
      invariant rest <= stack
      invariant forall a :: |rest| <= a < |stack| ==> items[stack[a]].depth >= depth
    {
      rest := rest[..|rest| - 1];
    }
    forall a | 0 <= a < |rest| ensures items[stack[a]].depth < depth {
      if a < |rest| - 1 {
        DepthsIncrease(items, stack, i, a, |rest| - 1);
      }
    }
  }

  // After the pops the top of the stack, if any, is the nearest enclosing
  // container of the item.
  lemma {:induction false} TopIsParent(items: seq<Item>, stack: seq<nat>, rest: seq<nat>, i: nat)
    requires i < |items| && IsFull(items[i]) && StackOk(items, stack, i) && rest <= stack
    requires forall a :: 0 <= a < |stack| ==> (a < |rest| <==> items[stack[a]].depth < items[i].depth)
    ensures IsParent(items, i, if rest == [] then None else Some(rest[|rest| - 1]))
  {
    forall j | 0 <= j < i && Encloses(items, j, i)
      ensures rest != [] && j <= rest[|rest| - 1]
    {
      var a :| 0 <= a < |stack| && stack[a] == j;
      assert a < |rest|;
    }
    if rest != [] {
      var top := rest[|rest| - 1];
      assert top == stack[|rest| - 1];
      assert Open(items, top, i);
    }
  }

  // The stack after a full item: the popped stack, and the item itself when
  // it is a container.
  lemma {:induction false} PushKeeps(items: seq<Item>, stack: seq<nat>, rest: seq<nat>, i: nat)
    requires i < |items| && IsFull(items[i]) && StackOk(items, stack, i) && rest <= stack
    requires forall a :: 0 <= a < |stack| ==> (a < |rest| <==> items[stack[a]].depth < items[i].depth)
    ensures StackOk(items, if IsContainer(items[i]) then rest + [i] else rest, i + 1)
  {
    hide IsContainer;
    var next := if IsContainer(items[i]) then rest + [i] else rest;
    assert forall a :: 0 <= a < |rest| ==> rest[a] == stack[a] && Open(items, stack[a], i);
    forall a | 0 <= a < |next| ensures Open(items, next[a], i + 1) {
      if a < |rest| {
        assert Open(items, stack[a], i);
      }
    }
    forall j | 0 <= j < i + 1 && Open(items, j, i + 1) ensures j in next {
      if j < i {
        assert Open(items, j, i);
        var a :| 0 <= a < |stack| && stack[a] == j;
        assert a < |rest| && next[a] == j;
      } else {
        assert next[|rest|] == j;
      }
    }
  }

  // A record that is neither full nor a separator leaves the stack alone.
  lemma {:induction false} OtherKeeps(items: seq<Item>, stack: seq<nat>, i: nat)
    requires i < |items| && !IsFull(items[i]) && !IsSeparator(items[i]) && StackOk(items, stack, i)
    ensures StackOk(items, stack, i + 1) && IsParent(items, i, None)
  {
    forall a | 0 <= a < |stack| ensures Open(items, stack[a], i + 1) {
      assert Open(items, stack[a], i);
    }
    forall j | 0 <= j < i + 1 && Open(items, j, i + 1) ensures j in stack {
      assert j < i && Open(items, j, i);
    }
  }

  // A separator closes everything.
  lemma {:induction false} SeparatorClears(items: seq<Item>, i: nat)
    requires i < |items| && IsSeparator(items[i])
    ensures StackOk(items, [], i + 1) && IsParent(items, i, None)
  {
    var n := i + 1;
    forall j | 0 <= j < n ensures !Open(items, j, n) {
      assert j < i ==> IsSeparator(items[i]);
    }
  }

  // ----- The loop

  /** One step of attach-or-route and push: the new stack and the parent. */
  method Place(items: seq<Item>, stack: seq<nat>, i: nat) returns (next: seq<nat>, parent: Option<nat>)
    requires i < |items| && StackOk(items, stack, i)
    ensures StackOk(items, next, i + 1)
    ensures IsParent(items, i, parent)
  {
    var it := items[i];
    parent := None;
    if IsSeparator(it) {
      SeparatorClears(items, i);
      next := [];
    } else if IsFull(it) {
      var rest := Pop(items, stack, i, it.depth);
      TopIsParent(items, stack, rest, i);
      PushKeeps(items, stack, rest, i);
      if |rest| > 0 {
        parent := Some(rest[|rest| - 1]);
      }
      next := if IsContainer(it) then rest + [i] else rest;
    } else {
      OtherKeeps(items, stack, i);
      next := stack;
    }
  }

  /** fromBuffer over whatever records it reads. */
  method FromBuffer(items: seq<Item>) returns (f: Forest)
    ensures IsForest(items, f)
  {
    NothingYet(items);
    hide StackOk, Routed, Receives, Transmits, Parents, Numbers;
    var parents: seq<Option<nat>> := [];
    var meta: seq<seq<nat>> := [[], [], [], [], [], []];
    var receive: seq<Option<nat>> := [];
    var transmit: seq<Option<nat>> := [];
    var full := false;
    var stack: seq<nat> := [];
    var rnum, tnum := 1, 1;
    var i := 0;
    while i < |items|
      invariant 0 <= i <= |items|
      invariant StackOk(items, stack, i)
      invariant Parents(items, i, parents)
      invariant Lists(items, i, parents, meta)
      invariant rnum == 1 + CountSince(items, i, Receives) && Numbers(items, i, receive, Receives)
      invariant tnum == 1 + CountSince(items, i, Transmits) && Numbers(items, i, transmit, Transmits)
      invariant full <==> exists k :: 0 <= k < i && IsFull(items[k])
    {
      var it := items[i];
      NumbersStep(items, i, receive, Receives);
      NumbersStep(items, i, transmit, Transmits);
      full := full || IsFull(it);
      receive := receive + [if Receives(it) then Some(rnum) else None];
      transmit := transmit + [if Transmits(it) then Some(tnum) else None];
      rnum := if IsSeparator(it) then 1 else if Receives(it) then rnum + 1 else rnum;
      tnum := if IsSeparator(it) then 1 else if Transmits(it) then tnum + 1 else tnum;
      var next, parent := Place(items, stack, i);
      ListsStep(items, i, parents, meta, parent);
      ParentsStep(items, i, parents, parent);
      parents := parents + [parent];
      if !IsSeparator(it) && parent.None? && 1 <= it.contentType <= 6 {
        meta := meta[it.contentType - 1 := meta[it.contentType - 1] + [i]];
      }
      stack := next;
      i := i + 1;
    }
    f := Forest(parents, meta, receive, transmit, full);
  }

  lemma {:induction false} NothingYet(items: seq<Item>)
    ensures StackOk(items, [], 0)
    ensures Parents(items, 0, []) && Lists(items, 0, [], [[], [], [], [], [], []])
    ensures Numbers(items, 0, [], Receives) && Numbers(items, 0, [], Transmits)
  {}

  lemma {:induction false} NumbersStep(items: seq<Item>, i: nat, numbers: seq<Option<nat>>, p: Item -> bool)
    requires i < |items| && Numbers(items, i, numbers, p)
    ensures Numbers(items, i + 1, numbers + [NumberOf(items, i, p)], p)
  {}

  lemma {:induction false} ParentsStep(items: seq<Item>, i: nat, parents: seq<Option<nat>>, parent: Option<nat>)
    requires i < |items| && Parents(items, i, parents) && IsParent(items, i, parent)
    ensures Parents(items, i + 1, parents + [parent])
  {}

  lemma {:induction false} ListsStep(items: seq<Item>, i: nat, parents: seq<Option<nat>>,
                                     meta: seq<seq<nat>>, parent: Option<nat>)
    requires i < |items| && Lists(items, i, parents, meta)
    ensures var c := items[i].contentType;
      Lists(items, i + 1, parents + [parent],
            if !IsSeparator(items[i]) && parent.None? && 1 <= c <= 6
            then meta[c - 1 := meta[c - 1] + [i]] else meta)
  {
    forall c | 0 <= c < 6
      ensures Routed(items, parents + [parent], i, c + 1) == meta[c]
    {
      RoutedPrefix(items, parents, parents + [parent], i, c + 1);
    }
  }

  lemma {:induction false} RoutedPrefix(items: seq<Item>, a: seq<Option<nat>>, b: seq<Option<nat>>, n: nat, c: nat)
    requires n <= |a| && n <= |items| && a <= b
    ensures Routed(items, a, n, c) == Routed(items, b, n, c)
  {
    if n > 0 {
      RoutedPrefix(items, a, b, n - 1, c);
    }
  }

  // ----- Consequences

  // Attached or routed, never both, and never twice: item i occurs in the
  // list of content type c exactly when it is a root of that type, and the
  // lists keep the order of the records.
  lemma {:induction false} RoutedOnce(items: seq<Item>, parents: seq<Option<nat>>, n: nat, c: nat)
    requires n <= |items| && n <= |parents|
    ensures var r := Routed(items, parents, n, c);
      && (forall i: nat :: i in r <==> i < n && !IsSeparator(items[i]) && parents[i].None? && items[i].contentType == c)
      && (forall a, b :: 0 <= a < b < |r| ==> r[a] < r[b])
  {
    if n > 0 {
      RoutedOnce(items, parents, n - 1, c);
      var rest := Routed(items, parents, n - 1, c);
      assert forall a :: 0 <= a < |rest| ==> rest[a] in rest;
      assert forall i: nat :: i in rest + [n - 1] <==> i in rest || i == n - 1;
    }
  }

  // The parent is unique, so the forest is determined by the records.
  lemma {:induction false} ForestUnique(items: seq<Item>, f: Forest, g: Forest)
    requires IsForest(items, f) && IsForest(items, g)
    ensures f == g
  {
    forall i | 0 <= i < |items| ensures f.parents[i] == g.parents[i] {
      ParentUnique(items, i, f.parents[i], g.parents[i]);
    }
    assert f.parents == g.parents;
    assert f.metaItems == g.metaItems;
    assert f.receiveNumbers == g.receiveNumbers;
    assert f.transmitNumbers == g.transmitNumbers;
  }

  lemma {:induction false} ParentUnique(items: seq<Item>, i: nat, p: Option<nat>, q: Option<nat>)
    requires i < |items| && IsParent(items, i, p) && IsParent(items, i, q)
    ensures p == q
  {
    hide Encloses;
  }
}
