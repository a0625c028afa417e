/** Merging pool files across a directory (`merge.rs`): gather what decodes, sort, deduplicate, and
    let the post-quantum pool win. */
module PoolMerge {
  import opened Bytes
  import opened Wrappers
  import DL = DomainList
  import opened SortedNames

  datatype Format = DualPool | LegacySinglePool

  /** A directory entry: its name in upper case, and its content unless reading it fails. */
  datatype File = File(name: string, data: Result<seq<byte>>)

  const EXCLUDED_FILES: seq<string> := ["CN.PB", "HK.PB", "MO.PB", "IR.PB", "RU.PB", "KP.PB"]

  predicate IsExcluded(name: string) { name in EXCLUDED_FILES }

  /** The old single-pool files hold classic names only, whatever field they are in. */
  function DecodedAs(data: seq<byte>, format: Format): Result<DL.Pools> {
    match DL.Decoded(data)
    case Err => Err
    case Ok(p) => Ok(if format.DualPool? then p else DL.Pools([], p.pq + p.classic))
  }

  /** What a file adds to the merge: nothing if it is excluded, unreadable or malformed. */
  function Contribution(f: File, format: Format): DL.Pools {
    if IsExcluded(f.name) || f.data.Err? || DecodedAs(f.data.value, format).Err? then DL.EMPTY
    else DecodedAs(f.data.value, format).value
  }

  function Gathered(files: seq<File>, format: Format): DL.Pools {
    if files == [] then DL.EMPTY
    else DL.Joined(Gathered(files[..|files| - 1], format), Contribution(files[|files| - 1], format))
  }

  function Merged(files: seq<File>, format: Format): DL.Pools {
    var all := Gathered(files, format);
    var pq := Canonical(DL.NonEmpty(all.pq));
    DL.Pools(pq, Without(Canonical(DL.NonEmpty(all.classic)), pq))
  }

  // ---------------------------------------------------------------------------------------------
  // The code

  method DedupeSorted(list: seq<Text>) returns (r: seq<Text>)
    ensures r == Canonical(DL.NonEmpty(list))
  {
    var kept := [];
    for i := 0 to |list|
      invariant kept == DL.NonEmpty(list[..i])
    {
      assert list[..i + 1][..i] == list[..i];
      if list[i] != [] {
        kept := kept + [list[i]];
      }
    }
    assert list[..|list|] == list;
    r := SortAndDedup(kept);
  }

  method DropNames(names: seq<Text>, dropped: seq<Text>) returns (kept: seq<Text>)
    ensures kept == Without(names, dropped)
  {
    kept := [];
    for i := 0 to |names|
      invariant kept == Without(names[..i], dropped)
    {
      assert names[..i + 1][..i] == names[..i];
      if names[i] !in dropped {
        kept := kept + [names[i]];
      }
    }
    assert names[..|names|] == names;
  }

  method CollectDir(files: seq<File>, format: Format) returns (r: DL.Pools)
    requires forall i | 0 <= i < |files| :: files[i].data.Ok? ==> |files[i].data.value| < U64
    ensures r == Merged(files, format)
  {
    var pq, classic := [], [];
    for i := 0 to |files|
      invariant DL.Pools(pq, classic) == Gathered(files[..i], format)
    {
      assert files[..i + 1][..i] == files[..i];
      if !IsExcluded(files[i].name) && files[i].data.Ok? {
        var decoded := DL.Decode(files[i].data.value);
        if decoded.Ok? {
          if format.DualPool? {
            pq, classic := pq + decoded.value.pq, classic + decoded.value.classic;
          } else {
            classic := classic + (decoded.value.pq + decoded.value.classic);
          }
        }
      }
    }
    assert files[..|files|] == files;
    pq := DedupeSorted(pq);
    classic := DedupeSorted(classic);
    var kept := DropNames(classic, pq);
    r := DL.Pools(pq, kept);
  }

  // ---------------------------------------------------------------------------------------------
  // What the merge means

  lemma {:induction false} NonEmptyElements(names: seq<Text>)
    ensures Elements(DL.NonEmpty(names)) == Elements(names) - {[]}
  {
    if names != [] {
      var n := |names| - 1;
      NonEmptyElements(names[..n]);
      ElementsLast(names);
      ElementsAppend(DL.NonEmpty(names[..n]), names[n]);
    }
  }

  ghost predicate PqName(files: seq<File>, format: Format, name: Text) {
    name != [] && exists f :: f in files && name in Contribution(f, format).pq
  }

  ghost predicate ClassicName(files: seq<File>, format: Format, name: Text) {
    name != [] && exists f :: f in files && name in Contribution(f, format).classic
  }

  lemma {:induction false} GatheredMeaning(files: seq<File>, format: Format, name: Text)
    requires name != []
    ensures name in Gathered(files, format).pq <==> PqName(files, format, name)
    ensures name in Gathered(files, format).classic <==> ClassicName(files, format, name)
  {
    if files != [] {
      var n := |files| - 1;
      GatheredMeaning(files[..n], format, name);
      assert forall f :: f in files <==> f in files[..n] || f == files[n];
    }
  }

  /** Both pools are strictly increasing, hold no empty name and share none; together they cover
      exactly the names of the readable, decodable, non-excluded files, with PQ winning. */
  lemma MergedMeaning(files: seq<File>, format: Format)
    ensures var r := Merged(files, format);
            && Increasing(r.pq) && Increasing(r.classic)
            && (forall name :: name in r.pq <==> PqName(files, format, name))
            && (forall name :: name in r.classic <==> ClassicName(files, format, name) && !PqName(files, format, name))
  {
    var r, all := Merged(files, format), Gathered(files, format);
    CanonicalMeaning(DL.NonEmpty(all.pq));
    CanonicalMeaning(DL.NonEmpty(all.classic));
    NonEmptyElements(all.pq);
    NonEmptyElements(all.classic);
    WithoutMeaning(Canonical(DL.NonEmpty(all.classic)), r.pq);
    forall name
      ensures name in r.pq <==> PqName(files, format, name)
      ensures name in r.classic <==> ClassicName(files, format, name) && !PqName(files, format, name)
    {
      assert name in r.pq <==> name in Elements(r.pq);
      assert name in r.classic <==> name in Elements(r.classic);
      assert name in all.pq <==> name in Elements(all.pq);
      assert name in all.classic <==> name in Elements(all.classic);
      if name != [] { GatheredMeaning(files, format, name); }
    }
  }

  // What the merged pools contain, in terms of the files themselves.

  /** A file counts unless it is one of six, cannot be read or does not decode. */
  ghost predicate Counts(f: File) {
    && f.name != "CN.PB" && f.name != "HK.PB" && f.name != "MO.PB" && f.name != "IR.PB" && f.name != "RU.PB" && f.name != "KP.PB"
    && f.data.Ok? && DL.Decoded(f.data.value).Ok?
  }

  ghost predicate InPq(files: seq<File>, name: Text) {
    exists f :: f in files && Counts(f) && name in DL.Decoded(f.data.value).value.pq
  }

  ghost predicate InClassic(files: seq<File>, name: Text) {
    exists f :: f in files && Counts(f) && name in DL.Decoded(f.data.value).value.classic
  }

  lemma ContributionMeaning(f: File, name: Text)
    ensures name in Contribution(f, DualPool).pq <==> Counts(f) && name in DL.Decoded(f.data.value).value.pq
    ensures name in Contribution(f, DualPool).classic <==> Counts(f) && name in DL.Decoded(f.data.value).value.classic
    ensures name !in Contribution(f, LegacySinglePool).pq
    ensures name in Contribution(f, LegacySinglePool).classic <==>
              Counts(f) && (name in DL.Decoded(f.data.value).value.pq || name in DL.Decoded(f.data.value).value.classic)
  {
    assert Counts(f) <==> !IsExcluded(f.name) && f.data.Ok? && DL.Decoded(f.data.value).Ok?;
  }

  /** Merging today's files keeps a post-quantum name post-quantum, and a classic one classic unless
      some file has it as post-quantum. In the old format every name of either field is classic. */
  lemma MergedNames(files: seq<File>, name: Text)
    ensures name in Merged(files, DualPool).pq <==> name != [] && InPq(files, name)
    ensures name in Merged(files, DualPool).classic <==> name != [] && InClassic(files, name) && !InPq(files, name)
    ensures name !in Merged(files, LegacySinglePool).pq
    ensures name in Merged(files, LegacySinglePool).classic <==> name != [] && (InPq(files, name) || InClassic(files, name))
  {
    MergedMeaning(files, DualPool);
    MergedMeaning(files, LegacySinglePool);
    DualNames(files, name);
    LegacyNames(files, name);
  }

  lemma DualNames(files: seq<File>, name: Text)
    ensures PqName(files, DualPool, name) <==> name != [] && InPq(files, name)
    ensures ClassicName(files, DualPool, name) <==> name != [] && InClassic(files, name)
  {
    forall f { ContributionMeaning(f, name); }
  }

  lemma LegacyNames(files: seq<File>, name: Text)
    ensures !PqName(files, LegacySinglePool, name)
    ensures ClassicName(files, LegacySinglePool, name) <==> name != [] && (InPq(files, name) || InClassic(files, name))
  {
    forall f { ContributionMeaning(f, name); }
  }

  /** The order of the files, and repeating one, make no difference. */
  lemma FileOrderIrrelevant(a: seq<File>, b: seq<File>, format: Format)
    requires forall f :: f in a <==> f in b
    ensures Merged(a, format) == Merged(b, format)
  {
    MergedMeaning(a, format);
    MergedMeaning(b, format);
    assert forall name :: PqName(a, format, name) <==> PqName(b, format, name);
    assert forall name :: ClassicName(a, format, name) <==> ClassicName(b, format, name);
    var r, s := Merged(a, format), Merged(b, format);
    assert Elements(r.pq) == Elements(s.pq);
    assert Elements(r.classic) == Elements(s.classic);
    IncreasingUnique(r.pq, s.pq);
    IncreasingUnique(r.classic, s.classic);
  }

  // ---------------------------------------------------------------------------------------------
  // Merging the result again

  lemma {:induction false} GatheredIsValid(files: seq<File>, format: Format)
    ensures DL.ValidPools(Gathered(files, format))
  {
    if files != [] {
      var f := files[|files| - 1];
      GatheredIsValid(files[..|files| - 1], format);
      if f.data.Ok? && DL.Decoded(f.data.value).Ok? { DL.DecodedIsValid(f.data.value); }
    }
  }

  lemma ValidByElements(a: seq<Text>, b: seq<Text>)
    requires DL.ValidTexts(a) && Elements(b) <= Elements(a)
    ensures DL.ValidTexts(b)
  {
    forall i | 0 <= i < |b| ensures ValidText(b[i]) {
      assert b[i] in Elements(b);
      assert b[i] in a;
    }
  }

  lemma {:induction false} NonEmptyIdentity(names: seq<Text>)
    requires [] !in names
    ensures DL.NonEmpty(names) == names
  {
    if names != [] {
      NonEmptyIdentity(names[..|names| - 1]);
      assert names == names[..|names| - 1] + [names[|names| - 1]];
    }
  }

  lemma CanonicalIdentity(names: seq<Text>)
    requires Increasing(names)
    ensures Canonical(names) == names
  {
    CanonicalMeaning(names);
    IncreasingUnique(Canonical(names), names);
  }

  lemma {:induction false} WithoutIdentity(names: seq<Text>, dropped: seq<Text>)
    requires forall x :: x in names ==> x !in dropped
    ensures Without(names, dropped) == names
  {
    if names != [] {
      var n := |names| - 1;
      WithoutIdentity(names[..n], dropped);
      assert names == names[..n] + [names[n]];
    }
  }

  lemma MergedIsValid(files: seq<File>, format: Format)
    ensures DL.ValidPools(Merged(files, format))
  {
    var r, all := Merged(files, format), Gathered(files, format);
    GatheredIsValid(files, format);
    NonEmptyElements(all.pq);
    NonEmptyElements(all.classic);
    CanonicalMeaning(DL.NonEmpty(all.pq));
    CanonicalMeaning(DL.NonEmpty(all.classic));
    WithoutMeaning(Canonical(DL.NonEmpty(all.classic)), r.pq);
    ValidByElements(all.pq, r.pq);
    ValidByElements(all.classic, r.classic);
  }

  /** Writing the merged pools out and merging that file again changes nothing. */
  lemma MergingAgainIsIdentity(files: seq<File>, format: Format, name: string)
    requires !IsExcluded(name)
    ensures var r := Merged(files, format);
            Merged([File(name, Ok(DL.Encoded(r)))], format) == r
  {
    var r := Merged(files, format);
    MergedMeaning(files, format);
    MergedReadBack(files, format);
    DL.JoinEmpty(r);
    var file := File(name, Ok(DL.Encoded(r)));
    assert [file][..0] == [];
    assert Gathered([file], format) == r;
    NonEmptyIdentity(r.pq);
    NonEmptyIdentity(r.classic);
    CanonicalIdentity(r.pq);
    CanonicalIdentity(r.classic);
    WithoutIdentity(r.classic, r.pq);
  }

  lemma MergedReadBack(files: seq<File>, format: Format)
    ensures var r := Merged(files, format); DecodedAs(DL.Encoded(r), format) == Ok(r)
  {
    var r := Merged(files, format);
    MergedMeaning(files, format);
    MergedIsValid(files, format);
    NonEmptyIdentity(r.pq);
    NonEmptyIdentity(r.classic);
    DL.RoundTrip(r);
    if format.LegacySinglePool? {
      LegacyHasNoPq(files);
      assert r.pq == [];
      assert r.pq + r.classic == r.classic;
    }
  }

  lemma {:induction false} LegacyHasNoPq(files: seq<File>)
    ensures Gathered(files, LegacySinglePool).pq == []
  {
    if files != [] { LegacyHasNoPq(files[..|files| - 1]); }
  }
}
