/** The last part of build-pools: accepted entries are put into per-country buckets, and each bucket
    is merged into the pool file of its country. */
module PoolFiles {
  import opened Bytes
  import opened Wrappers
  import opened SortedNames
  import DL = DomainList
  import opened RS = RunState

  /** What the deep probe says of an entry: dropped, or kept in a pool of its country. */
  datatype Verdict = Drop | Pool(country: string, pq: bool)

  type Judge = Entry -> Verdict

  // ---------------------------------------------------------------------------------------------
  // Buckets

  /** The names accepted under any of the given countries, in the order they came. */
  function BucketIn(judge: Judge, accepted: seq<Entry>, countries: set<string>): DL.Pools {
    if accepted == [] then DL.EMPTY
    else
      var e := accepted[|accepted| - 1];
      var before := BucketIn(judge, accepted[..|accepted| - 1], countries);
      if judge(e).Drop? || judge(e).country !in countries then before
      else if judge(e).pq then before.(pq := before.pq + [e.domain])
      else before.(classic := before.classic + [e.domain])
  }

  function BucketOf(judge: Judge, accepted: seq<Entry>, country: string): DL.Pools {
    BucketIn(judge, accepted, {country})
  }

  function Countries(judge: Judge, accepted: seq<Entry>): set<string> {
    set e | e in accepted && judge(e).Pool? :: judge(e).country
  }

  /** The drain loop: every received entry goes to exactly one of the two lists of its country. */
  method Bucketed(judge: Judge, accepted: seq<Entry>) returns (byCountry: map<string, DL.Pools>)
    requires forall i | 0 <= i < |accepted| :: judge(accepted[i]).Pool?
    ensures byCountry.Keys == Countries(judge, accepted)
    ensures forall c | c in byCountry :: byCountry[c] == BucketOf(judge, accepted, c)
  {
    byCountry := map[];
    for i := 0 to |accepted|
      invariant byCountry.Keys == Countries(judge, accepted[..i])
      invariant forall c :: (if c in byCountry then byCountry[c] else DL.EMPTY) == BucketOf(judge, accepted[..i], c)
    {
      var e := accepted[i];
      assert accepted[..i + 1][..i] == accepted[..i];
      assert accepted[..i + 1] == accepted[..i] + [e];
      var country := judge(e).country;
      var bucket := if country in byCountry then byCountry[country] else DL.EMPTY;
      if judge(e).pq {
        byCountry := byCountry[country := bucket.(pq := bucket.pq + [e.domain])];
      } else {
        byCountry := byCountry[country := bucket.(classic := bucket.classic + [e.domain])];
      }
    }
    assert accepted[..|accepted|] == accepted;
  }

  ghost predicate AcceptedAs(judge: Judge, accepted: seq<Entry>, countries: set<string>, name: Text, pq: bool) {
    exists e :: e in accepted && e.domain == name && judge(e).Pool? && judge(e).country in countries && judge(e).pq == pq
  }

  lemma {:induction false} BucketMembers(judge: Judge, accepted: seq<Entry>, countries: set<string>, name: Text)
    ensures name in BucketIn(judge, accepted, countries).pq <==> AcceptedAs(judge, accepted, countries, name, true)
    ensures name in BucketIn(judge, accepted, countries).classic <==> AcceptedAs(judge, accepted, countries, name, false)
  {
    if accepted != [] {
      var n := |accepted| - 1;
      BucketMembers(judge, accepted[..n], countries, name);
      assert forall e :: e in accepted <==> e in accepted[..n] || e == accepted[n];
    }
  }

  ghost predicate SameNames(a: DL.Pools, b: DL.Pools) {
    Elements(a.pq) == Elements(b.pq) && Elements(a.classic) == Elements(b.classic)
  }

  /** `both` has the names of `a` and of `b`. */
  ghost predicate NamesOfBoth(a: DL.Pools, b: DL.Pools, both: DL.Pools) {
    Elements(both.pq) == Elements(a.pq) + Elements(b.pq) && Elements(both.classic) == Elements(a.classic) + Elements(b.classic)
  }

  /** The order in which entries are accepted does not change what a bucket contains. */
  lemma BucketByMembers(judge: Judge, a: seq<Entry>, b: seq<Entry>, countries: set<string>)
    requires forall e :: e in a <==> e in b
    ensures SameNames(BucketIn(judge, a, countries), BucketIn(judge, b, countries))
  {
    forall name
      ensures name in BucketIn(judge, a, countries).pq <==> name in BucketIn(judge, b, countries).pq
      ensures name in BucketIn(judge, a, countries).classic <==> name in BucketIn(judge, b, countries).classic
    {
      BucketMembers(judge, a, countries, name);
      BucketMembers(judge, b, countries, name);
      assert forall pq :: AcceptedAs(judge, a, countries, name, pq) <==> AcceptedAs(judge, b, countries, name, pq);
    }
  }

  lemma BucketUnion(judge: Judge, accepted: seq<Entry>, a: set<string>, b: set<string>)
    ensures NamesOfBoth(BucketIn(judge, accepted, a), BucketIn(judge, accepted, b), BucketIn(judge, accepted, a + b))
  {
    forall name
      ensures name in BucketIn(judge, accepted, a + b).pq <==>
              name in BucketIn(judge, accepted, a).pq || name in BucketIn(judge, accepted, b).pq
      ensures name in BucketIn(judge, accepted, a + b).classic <==>
              name in BucketIn(judge, accepted, a).classic || name in BucketIn(judge, accepted, b).classic
    {
      BucketMembers(judge, accepted, a, name);
      BucketMembers(judge, accepted, b, name);
      BucketMembers(judge, accepted, a + b, name);
    }
  }

  // ---------------------------------------------------------------------------------------------
  // Files

  /** What a pool file holds; one that is missing or does not decode counts as empty. */
  function Existing(file: Option<seq<byte>>): DL.Pools {
    if file.Some? && DL.Decoded(file.value).Ok? then DL.Decoded(file.value).value else DL.EMPTY
  }

  function Rewritten(file: Option<seq<byte>>, bucket: DL.Pools): seq<byte> {
    var held := Existing(file);
    DL.Encoded(DL.Pools(Canonical(held.pq + bucket.pq), Canonical(held.classic + bucket.classic)))
  }

  method WriteCountry(file: Option<seq<byte>>, bucket: DL.Pools) returns (r: seq<byte>)
    requires file.Some? ==> |file.value| < U64
    ensures r == Rewritten(file, bucket)
    ensures DL.ValidPools(bucket) ==> forall name | name != [] :: HoldsBoth(file, bucket, r, name)
  {
    var merged := DL.EMPTY;
    if file.Some? {
      var decoded := DL.Decode(file.value);
      if decoded.Ok? {
        merged := decoded.value;
      }
    }
    var pq := SortAndDedup(merged.pq + bucket.pq);
    var classic := SortAndDedup(merged.classic + bucket.classic);
    r := DL.Encode(pq, classic);
    if DL.ValidPools(bucket) {
      forall name | name != [] ensures HoldsBoth(file, bucket, r, name) { RewrittenHolds(file, bucket, name); }
    }
  }

  // ---------------------------------------------------------------------------------------------
  // Writing the same bucket again

  lemma ElementsConcat(a: seq<Text>, b: seq<Text>)
    ensures Elements(a + b) == Elements(a) + Elements(b)
  {
  }

  lemma {:induction false} NonEmptyIsWithout(names: seq<Text>)
    ensures DL.NonEmpty(names) == Without(names, [[]])
  {
    if names != [] { NonEmptyIsWithout(names[..|names| - 1]); }
  }

  lemma {:induction false} FieldsSkipEmpty(tag: byte, names: seq<Text>)
    ensures DL.StringFields(tag, names) == DL.StringFields(tag, DL.NonEmpty(names))
  {
    if names != [] {
      var n := |names| - 1;
      FieldsSkipEmpty(tag, names[..n]);
      if names[n] != [] {
        assert DL.NonEmpty(names) == DL.NonEmpty(names[..n]) + [names[n]];
        assert DL.NonEmpty(names)[..|DL.NonEmpty(names)| - 1] == DL.NonEmpty(names[..n]);
      } else {
        assert DL.NonEmpty(names) == DL.NonEmpty(names[..n]);
        assert DL.StringFields(tag, names) == DL.StringFields(tag, names[..n]);
      }
    }
  }

  /** Two increasing lists that differ at most in the empty name encode the same. */
  lemma SameFields(tag: byte, a: seq<Text>, b: seq<Text>)
    requires Increasing(a) && Increasing(b) && Elements(a) - {[]} == Elements(b) - {[]}
    ensures DL.StringFields(tag, a) == DL.StringFields(tag, b)
  {
    FieldsSkipEmpty(tag, a);
    FieldsSkipEmpty(tag, b);
    NonEmptyIsWithout(a);
    NonEmptyIsWithout(b);
    WithoutMeaning(a, [[]]);
    WithoutMeaning(b, [[]]);
    assert Elements([[]]) == {[]};
    IncreasingUnique(DL.NonEmpty(a), DL.NonEmpty(b));
  }

  /** Merging twice is merging once with all the names, up to the empty name. */
  lemma MergeTwice(tag: byte, held: seq<Text>, bucket: seq<Text>, again: seq<Text>, both: seq<Text>)
    requires Elements(both) == Elements(bucket) + Elements(again)
    ensures DL.StringFields(tag, Canonical(DL.NonEmpty(Canonical(held + bucket)) + again)) == DL.StringFields(tag, Canonical(held + both))
  {
    var first := Canonical(held + bucket);
    CanonicalMeaning(held + bucket);
    CanonicalMeaning(DL.NonEmpty(first) + again);
    CanonicalMeaning(held + both);
    ElementsConcat(held, bucket);
    ElementsConcat(held, both);
    ElementsConcat(DL.NonEmpty(first), again);
    NonEmptyIsWithout(first);
    WithoutMeaning(first, [[]]);
    assert Elements([[]]) == {[]};
    SameFields(tag, Canonical(DL.NonEmpty(first) + again), Canonical(held + both));
  }

  lemma ValidConcat(held: seq<Text>, more: seq<Text>)
    requires DL.ValidTexts(held) && DL.ValidTexts(more)
    ensures DL.ValidTexts(Canonical(held + more))
  {
    CanonicalMeaning(held + more);
    var r := Canonical(held + more);
    forall i | 0 <= i < |r| ensures ValidText(r[i]) {
      assert r[i] in Elements(r);
      assert r[i] in held + more;
    }
  }

  /** Writing one bucket and then another is writing both at once; this needs nothing of the file
      that was there first. */
  lemma RewriteTwice(file: Option<seq<byte>>, bucket: DL.Pools, again: DL.Pools, both: DL.Pools)
    requires DL.ValidPools(bucket) && NamesOfBoth(bucket, again, both)
    ensures Rewritten(Some(Rewritten(file, bucket)), again) == Rewritten(file, both)
  {
    var held := Existing(file);
    if file.Some? && DL.Decoded(file.value).Ok? { DL.DecodedIsValid(file.value); }
    ValidConcat(held.pq, bucket.pq);
    ValidConcat(held.classic, bucket.classic);
    DL.RoundTrip(DL.Pools(Canonical(held.pq + bucket.pq), Canonical(held.classic + bucket.classic)));
    MergeTwice(DL.TAG_PQ, held.pq, bucket.pq, again.pq, both.pq);
    MergeTwice(DL.TAG_CLASSIC, held.classic, bucket.classic, again.classic, both.classic);
  }

  /** Rewriting a file that already holds the bucket, even in another order, changes no byte of it. */
  lemma RewriteIdempotent(file: Option<seq<byte>>, bucket: DL.Pools, again: DL.Pools)
    requires DL.ValidPools(bucket) && SameNames(bucket, again)
    ensures Rewritten(Some(Rewritten(file, bucket)), again) == Rewritten(file, bucket)
  {
    RewriteTwice(file, bucket, again, bucket);
  }

  /** The same holds from the start: only which names are in the bucket matters. */
  lemma RewriteByMembers(file: Option<seq<byte>>, bucket: DL.Pools, again: DL.Pools)
    requires SameNames(bucket, again)
    ensures Rewritten(file, bucket) == Rewritten(file, again)
  {
    var held := Existing(file);
    ElementsConcat(held.pq, bucket.pq);
    ElementsConcat(held.pq, again.pq);
    ElementsConcat(held.classic, bucket.classic);
    ElementsConcat(held.classic, again.classic);
    CanonicalByElements(held.pq + bucket.pq, held.pq + again.pq);
    CanonicalByElements(held.classic + bucket.classic, held.classic + again.classic);
  }

  // ---------------------------------------------------------------------------------------------
  // What a file holds afterwards

  lemma CanonicalHolds(held: seq<Text>, more: seq<Text>, name: Text)
    requires name != []
    ensures name in DL.NonEmpty(Canonical(held + more)) <==> name in held || name in more
  {
    var c := Canonical(held + more);
    CanonicalMeaning(held + more);
    NonEmptyIsWithout(c);
    WithoutMeaning(c, [[]]);
    assert name in DL.NonEmpty(c) <==> name in Elements(DL.NonEmpty(c));
    assert name in Elements(c) <==> name in c;
    assert name in Elements(held + more) <==> name in held || name in more;
  }

  lemma ExistingValid(file: Option<seq<byte>>)
    ensures DL.ValidPools(Existing(file))
  {
    if file.Some? && DL.Decoded(file.value).Ok? { DL.DecodedIsValid(file.value); }
  }

  lemma RewrittenDecodes(file: Option<seq<byte>>, bucket: DL.Pools)
    requires DL.ValidPools(bucket)
    ensures var held := Existing(file);
            DL.Decoded(Rewritten(file, bucket)) ==
              Ok(DL.Pools(DL.NonEmpty(Canonical(held.pq + bucket.pq)), DL.NonEmpty(Canonical(held.classic + bucket.classic))))
  {
    var held := Existing(file);
    ExistingValid(file);
    ValidConcat(held.pq, bucket.pq);
    ValidConcat(held.classic, bucket.classic);
    DL.RoundTrip(DL.Pools(Canonical(held.pq + bucket.pq), Canonical(held.classic + bucket.classic)));
  }

  /** A name is in a file's post-quantum pool. */
  ghost predicate HeldPq(file: Option<seq<byte>>, name: Text) {
    file.Some? && DL.Decoded(file.value).Ok? && name in DL.Decoded(file.value).value.pq
  }

  ghost predicate HeldClassic(file: Option<seq<byte>>, name: Text) {
    file.Some? && DL.Decoded(file.value).Ok? && name in DL.Decoded(file.value).value.classic
  }

  /** `name` is in each pool of `after` if that pool of `file` had it or the bucket brings it for that
      pool, and not otherwise. */
  ghost predicate HoldsBoth(file: Option<seq<byte>>, bucket: DL.Pools, after: seq<byte>, name: Text) {
    && DL.Decoded(after).Ok?
    && (name in DL.Decoded(after).value.pq <==> HeldPq(file, name) || name in bucket.pq)
    && (name in DL.Decoded(after).value.classic <==> HeldClassic(file, name) || name in bucket.classic)
  }

  /** The file that is written can be read, and each of its pools holds what that pool held before
      and what the bucket brings for it: nothing is lost and nothing changes pools. A file that could
      not be read before held nothing. */
  lemma RewrittenHolds(file: Option<seq<byte>>, bucket: DL.Pools, name: Text)
    requires DL.ValidPools(bucket) && name != []
    ensures HoldsBoth(file, bucket, Rewritten(file, bucket), name)
  {
    RewrittenDecodes(file, bucket);
    var held := Existing(file);
    CanonicalHolds(held.pq, bucket.pq, name);
    CanonicalHolds(held.classic, bucket.classic, name);
  }

  /** Both pools of the file that is written are in strictly increasing order. */
  lemma RewrittenOrdered(file: Option<seq<byte>>, bucket: DL.Pools)
    requires DL.ValidPools(bucket)
    ensures DL.Decoded(Rewritten(file, bucket)).Ok?
    ensures var after := DL.Decoded(Rewritten(file, bucket)).value;
            Increasing(after.pq) && Increasing(after.classic) && [] !in after.pq && [] !in after.classic
  {
    RewrittenDecodes(file, bucket);
    var held := Existing(file);
    NoEmptyName(held.pq + bucket.pq);
    NoEmptyName(held.classic + bucket.classic);
  }

  lemma NoEmptyName(names: seq<Text>)
    ensures var r := DL.NonEmpty(Canonical(names));
            Increasing(r) && [] !in r
  {
    var c := Canonical(names);
    CanonicalMeaning(names);
    NonEmptyIsWithout(c);
    WithoutMeaning(c, [[]]);
    assert Elements([[]]) == {[]};
    assert [] in DL.NonEmpty(c) ==> [] in Elements(DL.NonEmpty(c));
  }
}
