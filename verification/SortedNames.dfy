/** Names in byte order: sorting and removing duplicates, as the pool files need them. A strictly
    increasing list is determined by its elements, which makes merged pools canonical. */
module SortedNames {
  import opened Bytes

  /** Lexicographic order on bytes, the order of Rust strings. */
  predicate Less(a: Text, b: Text) {
    b != [] && (a == [] || a[0] < b[0] || (a[0] == b[0] && Less(a[1..], b[1..])))
  }

  /** `a` comes before `b` if it ends first, with nothing different before that, or has the smaller
      byte where they first differ. */
  ghost predicate ComesBefore(a: Text, b: Text, k: nat) {
    && k <= |a| && k < |b| && (forall i | 0 <= i < k :: a[i] == b[i])
    && (k == |a| || a[k] < b[k])
  }

  lemma {:induction false} LessMeaning(a: Text, b: Text)
    ensures Less(a, b) <==> exists k: nat :: ComesBefore(a, b, k)
  {
    if a == [] || b == [] || a[0] != b[0] {
      assert b != [] && (a == [] || a[0] < b[0]) ==> ComesBefore(a, b, 0);
    } else {
      LessMeaning(a[1..], b[1..]);
      if k: nat :| ComesBefore(a[1..], b[1..], k) {
        assert forall i | 0 < i < k + 1 :: a[i] == a[1..][i - 1] && b[i] == b[1..][i - 1];
        assert ComesBefore(a, b, k + 1);
      }
      if k: nat :| ComesBefore(a, b, k) { assert ComesBefore(a[1..], b[1..], k - 1); }
    }
  }

  lemma {:induction false} LessTransitive(a: Text, b: Text, c: Text)
    requires Less(a, b) && Less(b, c)
    ensures Less(a, c)
  {
    if a != [] && a[0] == b[0] == c[0] { LessTransitive(a[1..], b[1..], c[1..]); }
  }

  lemma {:induction false} LessIrreflexive(a: Text)
    ensures !Less(a, a)
  {
    if a != [] { LessIrreflexive(a[1..]); }
  }

  lemma {:induction false} LessTotal(a: Text, b: Text)
    ensures Less(a, b) || a == b || Less(b, a)
  {
    if a != [] && b != [] && a[0] == b[0] {
      LessTotal(a[1..], b[1..]);
      if a[1..] == b[1..] { assert a == [a[0]] + a[1..] && b == [b[0]] + b[1..]; }
    }
  }

  ghost predicate Increasing(s: seq<Text>) {
    forall i, j | 0 <= i < j < |s| :: Less(s[i], s[j])
  }

  predicate AtMost(a: Text, b: Text) { a == b || Less(a, b) }

  ghost predicate Sorted(s: seq<Text>) {
    forall i, j | 0 <= i < j < |s| :: AtMost(s[i], s[j])
  }

  ghost function Elements(s: seq<Text>): set<Text> { set x | x in s }

  lemma ElementsAppend(s: seq<Text>, x: Text)
    ensures Elements(s + [x]) == Elements(s) + {x}
  {
  }

  lemma ElementsLast(s: seq<Text>)
    requires s != []
    ensures Elements(s) == Elements(s[..|s| - 1]) + {s[|s| - 1]}
  {
    assert s == s[..|s| - 1] + [s[|s| - 1]];
    ElementsAppend(s[..|s| - 1], s[|s| - 1]);
  }

  /** A strictly increasing list is the only one with its elements. */
  lemma {:induction false} IncreasingUnique(s: seq<Text>, t: seq<Text>)
    requires Increasing(s) && Increasing(t) && Elements(s) == Elements(t)
    ensures s == t
  {
    NoElements(s);
    NoElements(t);
    if s != [] {
      HeadsAgree(s, t);
      TailElements(s);
      TailElements(t);
      IncreasingUnique(s[1..], t[1..]);
      assert s == [s[0]] + s[1..] && t == [t[0]] + t[1..];
    }
  }

  lemma NoElements(s: seq<Text>)
    ensures s == [] <==> Elements(s) == {}
  {
    if s != [] { assert s[0] in Elements(s); }
  }

  lemma HeadsAgree(s: seq<Text>, t: seq<Text>)
    requires Increasing(s) && Increasing(t) && Elements(s) == Elements(t) && s != [] && t != []
    ensures s[0] == t[0]
  {
    assert s[0] in Elements(t) && t[0] in Elements(s);
    var i :| 0 <= i < |t| && t[i] == s[0];
    var j :| 0 <= j < |s| && s[j] == t[0];
    if i > 0 && j > 0 {
      LessTransitive(s[0], t[0], s[0]);
      LessIrreflexive(s[0]);
      assert false;
    }
  }

  lemma TailElements(s: seq<Text>)
    requires Increasing(s) && s != []
    ensures Increasing(s[1..]) && Elements(s[1..]) == Elements(s) - {s[0]}
  {
    LessIrreflexive(s[0]);
    assert s == [s[0]] + s[1..];
    forall x | x in s[1..] ensures x != s[0] {
      var i :| 0 <= i < |s[1..]| && s[1..][i] == x;
      assert Less(s[0], s[i + 1]);
    }
  }

  // ---------------------------------------------------------------------------------------------
  // The canonical list of a collection of names

  function Inserted(s: seq<Text>, x: Text): seq<Text> {
    if s == [] then [x]
    else if Less(x, s[0]) then [x] + s
    else if x == s[0] then s
    else [s[0]] + Inserted(s[1..], x)
  }

  lemma {:induction false} InsertedMeaning(s: seq<Text>, x: Text)
    requires Increasing(s)
    ensures Increasing(Inserted(s, x)) && Elements(Inserted(s, x)) == Elements(s) + {x}
  {
    if s != [] {
      if Less(x, s[0]) {
        forall j | 0 <= j < |s| ensures Less(x, s[j]) {
          if j > 0 { LessTransitive(x, s[0], s[j]); }
        }
        PrependMeaning(x, s);
      } else if x != s[0] {
        TailElements(s);
        InsertedMeaning(s[1..], x);
        LessTotal(x, s[0]);
        var rest := Inserted(s[1..], x);
        forall j | 0 <= j < |rest| ensures Less(s[0], rest[j]) {
          assert rest[j] in Elements(rest);
        }
        PrependMeaning(s[0], rest);
        assert s[0] in Elements(s);
      } else {
        assert s[0] in Elements(s);
      }
    }
  }

  lemma PrependMeaning(x: Text, s: seq<Text>)
    requires Increasing(s) && forall j | 0 <= j < |s| :: Less(x, s[j])
    ensures Increasing([x] + s) && Elements([x] + s) == {x} + Elements(s)
  {
  }

  /** The strictly increasing list of the names in `names`. */
  function Canonical(names: seq<Text>): seq<Text> {
    if names == [] then [] else Inserted(Canonical(names[..|names| - 1]), names[|names| - 1])
  }

  lemma {:induction false} CanonicalMeaning(names: seq<Text>)
    ensures Increasing(Canonical(names)) && Elements(Canonical(names)) == Elements(names)
  {
    if names != [] {
      var n := |names| - 1;
      CanonicalMeaning(names[..n]);
      InsertedMeaning(Canonical(names[..n]), names[n]);
      assert names == names[..n] + [names[n]];
    }
  }

  /** Only the set of names matters. */
  lemma CanonicalByElements(a: seq<Text>, b: seq<Text>)
    requires Elements(a) == Elements(b)
    ensures Canonical(a) == Canonical(b)
  {
    CanonicalMeaning(a);
    CanonicalMeaning(b);
    IncreasingUnique(Canonical(a), Canonical(b));
  }

  function Without(names: seq<Text>, dropped: seq<Text>): seq<Text> {
    if names == [] then []
    else Without(names[..|names| - 1], dropped) + if names[|names| - 1] in dropped then [] else [names[|names| - 1]]
  }

  lemma {:induction false} WithoutMeaning(names: seq<Text>, dropped: seq<Text>)
    requires Increasing(names)
    ensures Elements(Without(names, dropped)) == Elements(names) - Elements(dropped)
    ensures Increasing(Without(names, dropped))
  {
    if names != [] {
      var n := |names| - 1;
      WithoutMeaning(names[..n], dropped);
      ElementsLast(names);
      var before := Without(names[..n], dropped);
      ElementsAppend(before, names[n]);
      forall j | 0 <= j < |before| ensures Less(before[j], names[n]) {
        assert before[j] in Elements(before);
        var i :| 0 <= i < n && names[i] == before[j];
      }
      if names[n] in dropped {
        assert Without(names, dropped) == before;
      } else {
        assert Without(names, dropped) == before + [names[n]];
      }
    }
  }

  // ---------------------------------------------------------------------------------------------
  // In place

  /** Insertion sort in place of the library's `sort`. */
  method Sort(list: seq<Text>) returns (r: seq<Text>)
    ensures Sorted(r) && multiset(r) == multiset(list)
  {
    r := [];
    for i := 0 to |list|
      invariant Sorted(r) && multiset(r) == multiset(list[..i])
    {
      var x := list[i];
      var k := 0;
      while k < |r| && AtMost(r[k], x)
        invariant 0 <= k <= |r|
        invariant forall j | 0 <= j < k :: AtMost(r[j], x)
      {
        k := k + 1;
      }
      InsertKeepsSorted(r, k, x);
      assert list[..i + 1] == list[..i] + [x];
      assert r == r[..k] + r[k..];
      r := r[..k] + [x] + r[k..];
    }
    assert list[..|list|] == list;
  }

  lemma InsertKeepsSorted(r: seq<Text>, k: nat, x: Text)
    requires Sorted(r) && k <= |r|
    requires forall j | 0 <= j < k :: AtMost(r[j], x)
    requires k < |r| ==> !AtMost(r[k], x)
    ensures Sorted(r[..k] + [x] + r[k..])
  {
    forall j | k <= j < |r| ensures Less(x, r[j]) {
      LessTotal(r[k], x);
      if j > k && r[k] != r[j] { LessTransitive(x, r[k], r[j]); }
    }
  }

  /** Removes equal neighbours, as `dedup` does. */
  method Dedup(list: seq<Text>) returns (r: seq<Text>)
    requires Sorted(list)
    ensures Increasing(r) && Elements(r) == Elements(list)
  {
    r := [];
    for i := 0 to |list|
      invariant Increasing(r) && Elements(r) == Elements(list[..i])
      invariant if i == 0 then r == [] else r != [] && r[|r| - 1] == list[i - 1]
    {
      assert list[..i + 1] == list[..i] + [list[i]];
      ElementsAppend(list[..i], list[i]);
      ElementsAppend(r, list[i]);
      assert i > 0 ==> AtMost(list[i - 1], list[i]) && r[|r| - 1] in Elements(r);
      if r == [] || r[|r| - 1] != list[i] {
        AppendKeepsIncreasing(r, list[i]);
        r := r + [list[i]];
      }
    }
    assert list[..|list|] == list;
  }

  lemma AppendKeepsIncreasing(r: seq<Text>, x: Text)
    requires Increasing(r) && (r != [] ==> Less(r[|r| - 1], x))
    ensures Increasing(r + [x])
  {
    forall j | 0 <= j < |r| ensures Less(r[j], x) {
      if j < |r| - 1 { LessTransitive(r[j], r[|r| - 1], x); }
    }
  }

  /** `sort` followed by `dedup`. */
  method SortAndDedup(list: seq<Text>) returns (r: seq<Text>)
    ensures r == Canonical(list)
  {
    var sorted := Sort(list);
    r := Dedup(sorted);
    assert forall x :: x in list <==> x in multiset(list);
    assert forall x :: x in sorted <==> x in multiset(sorted);
    CanonicalMeaning(list);
    IncreasingUnique(r, Canonical(list));
  }
}
