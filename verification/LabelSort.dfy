/** Case-insensitive label order and the two insertion sorts built on it. */
module LabelSort {

  /** A C string without its terminator. */
  type Label = s: string | '\0' !in s witness ""

  /** An ASCII capital as its small letter, any other character unchanged. */
  function Folded(c: char): int {
    if 'A' <= c <= 'Z' then c as int + ('a' as int - 'A' as int) else c as int
  }

  function Fold(s: string): (f: seq<int>)
    ensures |f| == |s|
  {
    seq(|s|, i requires 0 <= i < |s| => Folded(s[i]))
  }

  /** The character at position i, 0 for the terminator. */
  function At(s: Label, i: nat): (c: int)
    requires i <= |s|
    ensures c == 0 <==> i == |s|
  {
    if i < |s| then assert s[i] in s; Folded(s[i]) else 0
  }

  /** Lexicographic comparison of folded characters from position i on. */
  function CompareFrom(a: Label, b: Label, i: nat): int
    requires i <= |a| && i <= |b|
    decreases |a| - i
  {
    if At(a, i) != At(b, i) then At(a, i) - At(b, i)
    else if At(a, i) == 0 then 0
    else CompareFrom(a, b, i + 1)
  }

  function Compare(a: Label, b: Label): int { CompareFrom(a, b, 0) }

  /** menu_label_compare and settings_view_label_compare, character by character. */
  method LabelCompare(a: Label, b: Label) returns (order: int)
    ensures order == Compare(a, b)
  {
    var i := 0;
    while true
      invariant 0 <= i <= |a| && i <= |b| && Compare(a, b) == CompareFrom(a, b, i)
      decreases |a| - i
    {
      var ca := if i < |a| then a[i] as int else 0;
      var cb := if i < |b| then b[i] as int else 0;
      if ca >= 'A' as int && ca <= 'Z' as int {
        ca := ca + ('a' as int - 'A' as int);
      }
      if cb >= 'A' as int && cb <= 'Z' as int {
        cb := cb + ('a' as int - 'A' as int);
      }
      assert ca == At(a, i) && cb == At(b, i);
      if ca != cb {
        return ca - cb;
      }
      if ca == 0 {
        return 0;
      }
      i := i + 1;
    }
  }

  // ---------------------------------------------------------------- a total preorder that ignores case

  lemma {:induction false} CompareEqual(a: Label, b: Label, i: nat)
    requires i <= |a| && i <= |b|
    ensures CompareFrom(a, b, i) == 0 <==> Fold(a)[i..] == Fold(b)[i..]
    decreases |a| - i
  {
    var fa, fb := Fold(a)[i..], Fold(b)[i..];
    if i < |a| && i < |b| {
      assert fa == [fa[0]] + Fold(a)[i + 1..] && fb == [fb[0]] + Fold(b)[i + 1..];
      if At(a, i) == At(b, i) {
        CompareEqual(a, b, i + 1);
      } else {
        assert fa[0] != fb[0];
      }
    } else {
      assert |fa| == |a| - i && |fb| == |b| - i;
    }
  }

  /** Labels compare equal exactly when they differ at most in ASCII case. */
  lemma CompareIgnoresCase(a: Label, b: Label)
    ensures Compare(a, b) == 0 <==> Fold(a) == Fold(b)
  {
    CompareEqual(a, b, 0);
    assert Fold(a)[0..] == Fold(a) && Fold(b)[0..] == Fold(b);
  }

  /** Two characters fold alike exactly when they are equal or one letter in both cases. */
  lemma FoldedAlikeExactlyWhen(c: char, d: char)
    ensures Folded(c) == Folded(d) <==>
            || c == d
            || ('A' <= c <= 'Z' && d as int == c as int + 32)
            || ('A' <= d <= 'Z' && c as int == d as int + 32)
  {
  }

  lemma {:induction false} CommonPrefixSkipped(a: Label, b: Label, k: nat)
    requires k <= |a| && k <= |b| && forall i :: 0 <= i < k ==> Fold(a)[i] == Fold(b)[i]
    ensures Compare(a, b) == CompareFrom(a, b, k)
    decreases k
  {
    if k > 0 {
      CommonPrefixSkipped(a, b, k - 1);
      assert At(a, k - 1) == Fold(a)[k - 1] == Fold(b)[k - 1] == At(b, k - 1);
    }
  }

  /** After a common beginning the label with the smaller folded character, or the shorter one, comes first. */
  lemma FirstDifferenceDecides(a: Label, b: Label, k: nat)
    requires k <= |a| && k < |b| && forall i :: 0 <= i < k ==> Fold(a)[i] == Fold(b)[i]
    requires k < |a| ==> Fold(a)[k] < Fold(b)[k]
    ensures Compare(a, b) < 0 && Compare(b, a) > 0
  {
    CommonPrefixSkipped(a, b, k);
    CommonPrefixSkipped(b, a, k);
    assert At(b, k) == Fold(b)[k] && At(b, k) > 0 by {
      assert b[k] in b;
    }
    assert k < |a| ==> At(a, k) == Fold(a)[k];
  }

  lemma {:induction false} CompareAntisymmetric(a: Label, b: Label, i: nat)
    requires i <= |a| && i <= |b|
    ensures CompareFrom(b, a, i) == -CompareFrom(a, b, i)
    decreases |a| - i
  {
    if At(a, i) == At(b, i) && At(a, i) != 0 {
      CompareAntisymmetric(a, b, i + 1);
    }
  }

  lemma {:induction false} CompareTransitive(a: Label, b: Label, c: Label, i: nat)
    requires i <= |a| && i <= |b| && i <= |c|
    requires CompareFrom(a, b, i) <= 0 && CompareFrom(b, c, i) <= 0
    ensures CompareFrom(a, c, i) <= 0
    ensures CompareFrom(a, b, i) < 0 || CompareFrom(b, c, i) < 0 ==> CompareFrom(a, c, i) < 0
    decreases |a| - i
  {
    if At(a, i) == At(b, i) == At(c, i) && At(a, i) != 0 {
      CompareTransitive(a, b, c, i + 1);
    }
  }

  predicate Greater(a: Label, b: Label) { Compare(a, b) > 0 }

  predicate AtMost(a: Label, b: Label) { Compare(a, b) <= 0 }

  /** The comparison is a total preorder. */
  lemma TotalPreorder(a: Label, b: Label, c: Label)
    ensures AtMost(a, a) && (AtMost(a, b) || AtMost(b, a))
    ensures AtMost(a, b) && AtMost(b, c) ==> AtMost(a, c)
  {
    CompareIgnoresCase(a, a);
    CompareAntisymmetric(a, b, 0);
    if AtMost(a, b) && AtMost(b, c) {
      CompareTransitive(a, b, c, 0);
    }
  }

  // ---------------------------------------------------------------- what a stable sort must produce

  /** `order` lists the positions of `labels` by label, equal labels by position. */
  predicate Before(labels: seq<Label>, i: nat, j: nat)
    requires i < |labels| && j < |labels|
  {
    Compare(labels[i], labels[j]) < 0 || (Compare(labels[i], labels[j]) == 0 && i < j)
  }

  predicate StableOrder(labels: seq<Label>, order: seq<nat>) {
    && |order| == |labels|
    && (forall i :: 0 <= i < |order| ==> order[i] < |labels|)
    && (forall i, j :: 0 <= i < j < |order| ==> Before(labels, order[i], order[j]))
  }

  lemma BeforeIsStrict(labels: seq<Label>, i: nat, j: nat, k: nat)
    requires i < |labels| && j < |labels| && k < |labels|
    ensures !Before(labels, i, i)
    ensures Before(labels, i, j) && Before(labels, j, k) ==> Before(labels, i, k)
    ensures i != j ==> (Before(labels, i, j) <==> !Before(labels, j, i))
  {
    CompareIgnoresCase(labels[i], labels[i]);
    CompareAntisymmetric(labels[i], labels[j], 0);
    if Before(labels, i, j) && Before(labels, j, k) {
      CompareTransitive(labels[i], labels[j], labels[k], 0);
    }
  }

  /** Entries strictly ordered are distinct, so a stable order is a permutation of all positions. */
  lemma StableOrderIsPermutation(labels: seq<Label>, order: seq<nat>)
    requires StableOrder(labels, order)
    ensures forall i, j :: 0 <= i < j < |order| ==> order[i] != order[j]
    ensures forall p :: 0 <= p < |labels| ==> p in order
  {
    forall i, j | 0 <= i < j < |order|
      ensures order[i] != order[j]
    {
      BeforeIsStrict(labels, order[i], order[j], order[i]);
    }
    Pigeonhole(order, |labels|);
  }

  function Below(n: nat): (r: set<nat>)
    ensures |r| == n && forall p: nat :: p in r <==> p < n
  {
    if n == 0 then {} else Below(n - 1) + {n - 1}
  }

  /** n distinct numbers below n are all of them. */
  lemma Pigeonhole(order: seq<nat>, n: nat)
    requires |order| == n && (forall i :: 0 <= i < n ==> order[i] < n)
    requires forall i, j :: 0 <= i < j < n ==> order[i] != order[j]
    ensures forall p :: 0 <= p < n ==> p in order
  {
    DistinctSize(order, n);
    SubsetOfSameSize(set i | 0 <= i < n :: order[i], Below(n));
    forall p | 0 <= p < n
      ensures p in order
    {
      assert p in Below(n);
    }
  }

  lemma {:induction false} DistinctSize(order: seq<nat>, n: nat)
    requires n <= |order| && forall i, j :: 0 <= i < j < n ==> order[i] != order[j]
    ensures |set i | 0 <= i < n :: order[i]| == n
    decreases n
  {
    if n > 0 {
      DistinctSize(order, n - 1);
      var smaller := set i | 0 <= i < n - 1 :: order[i];
      assert order[n - 1] !in smaller;
      assert (set i | 0 <= i < n :: order[i]) == smaller + {order[n - 1]};
    }
  }

  lemma {:induction false} SubsetOfSameSize(a: set<nat>, b: set<nat>)
    requires a <= b && |a| == |b|
    ensures a == b
    decreases |b|
  {
    if x :| x in b && x !in a {
      assert a <= b - {x};
      SizeMonotone(a, b - {x});
    }
  }

  lemma {:induction false} SizeMonotone(a: set<nat>, b: set<nat>)
    requires a <= b
    ensures |a| <= |b|
    decreases |a|
  {
    if x :| x in a {
      SizeMonotone(a - {x}, b - {x});
    }
  }

  /** There is only one stable order, so a sort that produces it has no freedom left. */
  lemma {:induction false} StableOrderIsUnique(labels: seq<Label>, a: seq<nat>, b: seq<nat>, n: nat)
    requires StableOrder(labels, a) && StableOrder(labels, b) && n <= |labels|
    ensures a[..n] == b[..n]
    decreases n
  {
    if n > 0 {
      StableOrderIsUnique(labels, a, b, n - 1);
      StableOrderIsPermutation(labels, a);
      StableOrderIsPermutation(labels, b);
      if a[n - 1] != b[n - 1] {
        NoneBefore(labels, a, b, n - 1);
        NoneBefore(labels, b, a, n - 1);
        BeforeIsStrict(labels, a[n - 1], b[n - 1], a[n - 1]);
      }
      assert a[..n] == a[..n - 1] + [a[n - 1]] && b[..n] == b[..n - 1] + [b[n - 1]];
    }
  }

  /** Where two orders part, each one's next entry comes before the other's. */
  lemma NoneBefore(labels: seq<Label>, a: seq<nat>, b: seq<nat>, n: nat)
    requires StableOrder(labels, a) && StableOrder(labels, b) && n < |labels| && a[..n] == b[..n] && a[n] != b[n]
    requires b[n] in a && forall i, j :: 0 <= i < j < |b| ==> b[i] != b[j]
    ensures Before(labels, a[n], b[n])
  {
    forall k | 0 <= k < n
      ensures a[k] != b[n]
    {
      assert a[k] == a[..n][k] == b[..n][k] == b[k];
    }
    var k :| 0 <= k < |a| && a[k] == b[n];
  }

  // ---------------------------------------------------------------- settings_menu_sort

  /** A settings menu line: its label and the editor it opens. */
  datatype MenuEntry<E> = MenuEntry(caption: Label, editor: E)

  function Labels<E>(entries: seq<MenuEntry<E>>): (l: seq<Label>)
    ensures |l| == |entries| && forall i :: 0 <= i < |l| ==> l[i] == entries[i].caption
  {
    seq(|entries|, i requires 0 <= i < |entries| => entries[i].caption)
  }

  /** The array holds the original entries rearranged by `order`. */
  predicate Arranged<E(==)>(now: seq<MenuEntry<E>>, was: seq<MenuEntry<E>>, order: seq<nat>) {
    |now| == |was| == |order| && forall i :: 0 <= i < |now| ==> order[i] < |was| && now[i] == was[order[i]]
  }

  /** The first `n` positions are in stable order among themselves and are the first n entries. */
  predicate SortedPrefix(labels: seq<Label>, order: seq<nat>, n: nat) {
    && n <= |order| == |labels|
    && (forall i :: 0 <= i < n ==> order[i] < n)
    && (forall i :: n <= i < |order| ==> order[i] == i)
    && InOrder(labels, order[..n])
  }

  predicate InOrder(labels: seq<Label>, order: seq<nat>) {
    && (forall i :: 0 <= i < |order| ==> order[i] < |labels|)
    && (forall i, j :: 0 <= i < j < |order| ==> Before(labels, order[i], order[j]))
  }

  /** The sequence with the element at `i` moved down to `j`. */
  function MovedDown<T>(s: seq<T>, i: nat, j: nat): (r: seq<T>)
    requires j <= i < |s|
    ensures |r| == |s|
    ensures r[j] == s[i]
    ensures forall k :: 0 <= k < j || i < k < |s| ==> r[k] == s[k]
    ensures forall k :: j < k <= i ==> r[k] == s[k - 1]
  {
    s[..j] + [s[i]] + s[j..i] + s[i + 1..]
  }

  /** `now` is `was` with the elements from `j` to `i` shifted up by one, the gap at `j` still to be filled. */
  predicate Shifted<T(==)>(now: seq<T>, was: seq<T>, i: nat, j: nat) {
    && j <= i < |was| == |now|
    && (forall k :: 0 <= k < j ==> now[k] == was[k])
    && (forall k :: j < k <= i ==> now[k] == was[k - 1])
    && (forall k :: i < k < |now| ==> now[k] == was[k])
  }

  lemma ShiftOne<T>(now: seq<T>, was: seq<T>, i: nat, j: nat)
    requires 0 < j && Shifted(now, was, i, j)
    ensures now[j - 1] == was[j - 1] && Shifted(now[j := now[j - 1]], was, i, j - 1)
  {
  }

  lemma ShiftDone<T>(now: seq<T>, was: seq<T>, i: nat, j: nat)
    requires Shifted(now, was, i, j)
    ensures now[j := was[i]] == MovedDown(was, i, j)
  {
  }

  /** The newcomer's place: after everything not greater, before everything greater. */
  lemma NewcomerRanks(labels: seq<Label>, order: seq<nat>, n: nat, j: nat)
    requires SortedPrefix(labels, order, n) && j <= n < |labels|
    requires forall k :: j <= k < n ==> Greater(labels[order[k]], labels[n])
    requires j > 0 ==> !Greater(labels[order[j - 1]], labels[n])
    ensures forall k :: 0 <= k < j ==> Before(labels, order[k], n)
    ensures forall k :: j <= k < n ==> Before(labels, n, order[k])
  {
    forall k | 0 <= k < j
      ensures Before(labels, order[k], n)
    {
      if k < j - 1 {
        assert Before(labels, order[k], order[j - 1]);
        CompareTransitive(labels[order[k]], labels[order[j - 1]], labels[n], 0);
      }
    }
    forall k | j <= k < n
      ensures Before(labels, n, order[k])
    {
      CompareAntisymmetric(labels[order[k]], labels[n], 0);
    }
  }

  /** Moving position `n` down to `j` keeps the prefix sorted when everything above j is greater. */
  lemma PrefixGrows(labels: seq<Label>, order: seq<nat>, n: nat, j: nat)
    requires SortedPrefix(labels, order, n) && j <= n < |labels|
    requires forall k :: j <= k < n ==> Greater(labels[order[k]], labels[n])
    requires j > 0 ==> !Greater(labels[order[j - 1]], labels[n])
    ensures SortedPrefix(labels, MovedDown(order, n, j), n + 1)
  {
    NewcomerRanks(labels, order, n, j);
    MovedBounds(order, n, j);
    var next := MovedDown(order, n, j);
    forall p, q | 0 <= p < q < n + 1
      ensures Before(labels, next[p], next[q])
    {
      MovedPair(labels, order, n, j, p, q);
    }
  }

  lemma MovedBounds(order: seq<nat>, n: nat, j: nat)
    requires j <= n < |order| && (forall i :: 0 <= i < n ==> order[i] < n) && (forall i :: n <= i < |order| ==> order[i] == i)
    ensures forall i :: 0 <= i < n + 1 ==> MovedDown(order, n, j)[i] < n + 1
    ensures forall i :: n + 1 <= i < |order| ==> MovedDown(order, n, j)[i] == i
  {
  }

  lemma MovedPair(labels: seq<Label>, order: seq<nat>, n: nat, j: nat, p: nat, q: nat)
    requires SortedPrefix(labels, order, n) && j <= n < |labels| && p < q <= n
    requires forall k :: 0 <= k < j ==> Before(labels, order[k], n)
    requires forall k :: j <= k < n ==> Before(labels, n, order[k])
    ensures Before(labels, MovedDown(order, n, j)[p], MovedDown(order, n, j)[q])
  {
    assert order[n] == n;
    if p != j && q != j {
      assert Before(labels, order[if p < j then p else p - 1], order[if q < j then q else q - 1]);
    }
  }

  /** The entries from position j to i have captions greater than `key`. */
  predicate GreaterEntries<E>(was: seq<MenuEntry<E>>, j: nat, i: nat, key: Label)
    requires j <= i <= |was|
  {
    forall k :: j <= k < i ==> Greater(was[k].caption, key)
  }

  /** The inner loop of settings_menu_sort: shifts greater entries up and leaves a gap for entry i. */
  method OpenGap<E>(entries: array<MenuEntry<E>>, i: nat) returns (j: nat)
    requires i < entries.Length
    modifies entries
    ensures Shifted(entries[..], old(entries[..]), i, j)
    ensures GreaterEntries(old(entries[..]), j, i, old(entries[i].caption))
    ensures j > 0 ==> !Greater(old(entries[j - 1].caption), old(entries[i].caption))
  {
    var key := entries[i];
    ghost var was: seq<MenuEntry<E>> := entries[..];
    j := i;
    while j > 0 && Compare(entries[j - 1].caption, key.caption) > 0
      invariant Shifted(entries[..], was, i, j) && GreaterEntries(was, j, i, key.caption)
    {
      ghost var now: seq<MenuEntry<E>> := entries[..];
      ShiftOne(now, was, i, j);
      entries[j] := entries[j - 1];
      assert entries[..] == now[j := now[j - 1]];
      j := j - 1;
    }
    if j > 0 {
      ShiftOne(entries[..], was, i, j);
    }
  }

  /** The loop body of settings_menu_sort: entry i moves to its place. */
  method InsertEntry<E>(entries: array<MenuEntry<E>>, i: nat) returns (j: nat)
    requires i < entries.Length
    modifies entries
    ensures j <= i && entries[..] == MovedDown(old(entries[..]), i, j)
    ensures GreaterEntries(old(entries[..]), j, i, old(entries[i].caption))
    ensures j > 0 ==> !Greater(old(entries[j - 1].caption), old(entries[i].caption))
  {
    var key := entries[i];
    j := OpenGap(entries, i);
    ghost var now: seq<MenuEntry<E>> := entries[..];
    ShiftDone(now, old(entries[..]), i, j);
    entries[j] := key;
    assert entries[..] == now[j := key];
  }

  /** Moving an entry and its rank together keeps the arrangement. */
  lemma ArrangementMoves<E>(now: seq<MenuEntry<E>>, was: seq<MenuEntry<E>>, order: seq<nat>, i: nat, j: nat)
    requires Arranged(now, was, order) && j <= i < |was|
    ensures Arranged(MovedDown(now, i, j), was, MovedDown(order, i, j))
  {
  }

  lemma CaptionsAreLabels<E>(now: seq<MenuEntry<E>>, was: seq<MenuEntry<E>>, order: seq<nat>, i: nat)
    requires Arranged(now, was, order) && i < |was| && order[i] == i
    ensures forall k :: 0 <= k < |was| ==> now[k].caption == Labels(was)[order[k]]
    ensures now[i].caption == Labels(was)[i]
  {
  }

  /** What one insertion into the menu array means for the arrangement. */
  lemma MenuStep<E>(now: seq<MenuEntry<E>>, was: seq<MenuEntry<E>>, order: seq<nat>, i: nat, j: nat)
    requires Arranged(now, was, order) && SortedPrefix(Labels(was), order, i) && j <= i < |was|
    requires GreaterEntries(now, j, i, now[i].caption)
    requires j > 0 ==> !Greater(now[j - 1].caption, now[i].caption)
    ensures Arranged(MovedDown(now, i, j), was, MovedDown(order, i, j))
    ensures SortedPrefix(Labels(was), MovedDown(order, i, j), i + 1)
  {
    CaptionsAreLabels(now, was, order, i);
    PrefixGrows(Labels(was), order, i, j);
    ArrangementMoves(now, was, order, i, j);
  }

  lemma MenuSorted(labels: seq<Label>, order: seq<nat>)
    requires |order| == |labels| > 0 ==> SortedPrefix(labels, order, |labels|)
    requires |order| == |labels|
    ensures StableOrder(labels, order)
  {
    assert order[..|order|] == order;
  }

  /** The loop body again, with the arrangement of the original entries it keeps. */
  method PlaceEntry<E>(entries: array<MenuEntry<E>>, i: nat, ghost was: seq<MenuEntry<E>>, ghost order: seq<nat>)
    returns (ghost next: seq<nat>)
    requires i < |was| && Arranged(entries[..], was, order) && SortedPrefix(Labels(was), order, i)
    modifies entries
    ensures Arranged(entries[..], was, next) && SortedPrefix(Labels(was), next, i + 1)
  {
    ghost var before: seq<MenuEntry<E>> := entries[..];
    var j := InsertEntry(entries, i);
    MenuStep(before, was, order, i, j);
    next := MovedDown(order, i, j);
  }

  /** settings_menu_sort: a stable insertion sort in place; each label keeps its own editor. */
  method SettingsMenuSort<E>(entries: array<MenuEntry<E>>) returns (ghost order: seq<nat>)
    modifies entries
    ensures Arranged(entries[..], old(entries[..]), order)
    ensures StableOrder(Labels(old(entries[..])), order)
  {
    ghost var was := entries[..];
    order := seq(|was|, i => i);
    var i := 1;
    while i < entries.Length
      invariant 1 <= i && (|was| > 0 ==> i <= entries.Length)
      invariant |was| > 0 ==> SortedPrefix(Labels(was), order, i)
      invariant Arranged(entries[..], was, order)
    {
      order := PlaceEntry(entries, i, was, order);
      i := i + 1;
    }
    MenuSorted(Labels(was), order);
  }

  // ---------------------------------------------------------------- settings_view_order_build

  /** The indices from position j to i name labels greater than that of `key`. */
  predicate GreaterFrom(labels: seq<Label>, was: seq<nat>, j: nat, i: nat, key: nat)
    requires j <= i < |was| && key < |labels| && forall k :: 0 <= k <= i ==> was[k] < |labels|
  {
    forall k :: j <= k < i ==> Greater(labels[was[k]], labels[key])
  }

  /** The inner loop of settings_view_order_build. */
  method InsertIndex(labels: seq<Label>, order: array<nat>, i: nat) returns (j: nat)
    requires i < order.Length && forall k :: 0 <= k <= i ==> order[k] < |labels|
    modifies order
    ensures j <= i && order[..] == MovedDown(old(order[..]), i, j)
    ensures GreaterFrom(labels, old(order[..]), j, i, old(order[i]))
    ensures j > 0 ==> !Greater(labels[old(order[j - 1])], labels[old(order[i])])
  {
    var key := order[i];
    ghost var was: seq<nat> := order[..];
    j := i;
    assert forall k :: 0 <= k <= i ==> was[k] < |labels|;
    while j > 0 && Compare(labels[order[j - 1]], labels[key]) > 0
      invariant 0 <= j <= i && Shifted(order[..], was, i, j)
      invariant GreaterFrom(labels, was, j, i, key)
    {
      ghost var now: seq<nat> := order[..];
      ShiftOne(now, was, i, j);
      order[j] := order[j - 1];
      assert order[..] == now[j := now[j - 1]];
      j := j - 1;
    }
    if j > 0 {
      ShiftOne(order[..], was, i, j);
    }
    ghost var now: seq<nat> := order[..];
    ShiftDone(now, was, i, j);
    order[j] := key;
    assert order[..] == now[j := was[i]];
  }

  /** settings_view_order_build: sorts table indices by the label shown; the table stays put. */
  method SettingsViewOrderBuild(labels: seq<Label>, order: array<nat>)
    requires order.Length == |labels|
    modifies order
    ensures StableOrder(labels, order[..])
  {
    var i := 0;
    while i < order.Length
      invariant 0 <= i <= order.Length && forall k :: 0 <= k < i ==> order[k] == k
    {
      order[i] := i;
      i := i + 1;
    }
    i := 1;
    while i < order.Length
      invariant 1 <= i && (|labels| > 0 ==> i <= order.Length)
      invariant |labels| > 0 ==> SortedPrefix(labels, order[..], i)
    {
      ghost var before := order[..];
      var j := InsertIndex(labels, order, i);
      PrefixGrows(labels, before, i, j);
      i := i + 1;
    }
  }
}
