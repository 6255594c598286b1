/** The diff backfill of `main`: for a family other than main with a local version, the diffs
    numbered from the local version to the remote one, inclusive, that the mirror directory does
    not hold yet are fetched with `update_diff`, in ascending order. */
module Backfill {
  import opened Wrappers
  import opened Text
  import opened Paths
  import opened Manifest
  import opened Integrity
  import opened Pipeline
  import opened Retrying

  /** The numbers `n` .. `hi` whose diff `<family>-<m>.cdiff` is not in `mirror`, ascending. */
  function MissingNumbers(family: string, n: int, hi: int, mirror: map<string, string>): (r: seq<int>)
    ensures forall m :: m in r <==> n <= m <= hi && CdiffName(DiffId(family, m)) !in mirror
    ensures forall i :: 0 < i < |r| ==> r[i - 1] < r[i]
    decreases if n <= hi then hi - n + 1 else 0
  {
    if n > hi then []
    else
      var rest := MissingNumbers(family, n + 1, hi, mirror);
      assert n !in rest;
      if CdiffName(DiffId(family, n)) in mirror then rest
      else
        assert rest != [] ==> rest[0] in rest;
        assert forall m :: m in [n] + rest <==> m == n || m in rest;
        [n] + rest
  }

  /** `update_diff` for each diff number of `ns` in turn, stopping at an exception. */
  function UpdateDiffs(env: Env, s: State, ips: seq<string>, family: string, ns: seq<int>): (State, Result<(), Crash>)
    decreases |ns|
  {
    if ns == [] then (s, Ok(()))
    else
      var (s1, r) := UpdateDiffSpec(env, s, ips, DiffId(family, ns[0]));
      if r.Err? then (s1, Err(r.error)) else UpdateDiffs(env, s1, ips, family, ns[1..])
  }

  /** Different numbers name different diff files. */
  lemma DiffNamesDistinct(family: string, m: int, n: int)
    requires m != n
    ensures CdiffName(DiffId(family, m)) != CdiffName(DiffId(family, n))
  {
    if CdiffName(DiffId(family, m)) == CdiffName(DiffId(family, n)) {
      ArtifactNameInjective(DiffId(family, m), DiffId(family, n), true);
      DiffIdInjective(family, m, n);
    }
  }

  /** Which numbers are missing depends only on the presence of their own diff files. */
  lemma {:induction false} MissingNumbersFrame(family: string, n: int, hi: int, a: map<string, string>, b: map<string, string>)
    requires forall m :: n <= m <= hi ==> (CdiffName(DiffId(family, m)) in a <==> CdiffName(DiffId(family, m)) in b)
    ensures MissingNumbers(family, n, hi, a) == MissingNumbers(family, n, hi, b)
    decreases if n <= hi then hi - n + 1 else 0
  {
    if n <= hi {
      MissingNumbersFrame(family, n + 1, hi, a, b);
    }
  }

  /** After `update_diff` of diff `n`, the diffs numbered above `n` are missing exactly as before. */
  lemma UpdateDiffKeepsMissing(env: Env, s: State, ips: seq<string>, family: string, n: int, hi: int)
    ensures var s1 := UpdateDiffSpec(env, s, ips, DiffId(family, n)).0;
            MissingNumbers(family, n + 1, hi, s1.mirror) == MissingNumbers(family, n + 1, hi, s.mirror)
  {
    var s1 := UpdateDiffSpec(env, s, ips, DiffId(family, n)).0;
    RetryMirror(Judger(env, ""), s, ips, DiffId(family, n), "", true, 1);
    forall m | n + 1 <= m <= hi
      ensures CdiffName(DiffId(family, m)) in s1.mirror <==> CdiffName(DiffId(family, m)) in s.mirror
    {
      DiffNamesDistinct(family, m, n);
    }
    MissingNumbersFrame(family, n + 1, hi, s1.mirror, s.mirror);
  }

  /** The backfill loop is `update_diff` of exactly the diffs missing when it starts, in
      ascending order: a diff it fetches never changes which later ones are missing. */
  lemma {:induction false} BackfillIsMissingInOrder(env: Env, s: State, ips: seq<string>, family: string, n: int, hi: int)
    ensures BackfillFrom(env, s, ips, family, n, hi) == UpdateDiffs(env, s, ips, family, MissingNumbers(family, n, hi, s.mirror))
    decreases if n <= hi then hi - n + 1 else 0
  {
    if n <= hi {
      var id := DiffId(family, n);
      var rest := MissingNumbers(family, n + 1, hi, s.mirror);
      if CdiffName(id) in s.mirror {
        assert MissingNumbers(family, n, hi, s.mirror) == rest;
        BackfillIsMissingInOrder(env, s, ips, family, n + 1, hi);
      } else {
        assert MissingNumbers(family, n, hi, s.mirror) == [n] + rest;
        assert ([n] + rest)[1..] == rest;
        var (s1, r) := UpdateDiffSpec(env, s, ips, id);
        if r.Ok? {
          BackfillIsMissingInOrder(env, s1, ips, family, n + 1, hi);
          UpdateDiffKeepsMissing(env, s, ips, family, n, hi);
        }
      }
    }
  }

  /** With none of the range's diffs in the mirror directory, whatever else it holds, every diff
      of the range is fetched, the local version's own number first. */
  lemma NoDiffsFetchesWholeRange(family: string, n: int, hi: int, mirror: map<string, string>)
    requires n <= hi + 1
    requires forall m :: n <= m <= hi ==> CdiffName(DiffId(family, m)) !in mirror
    ensures var r := MissingNumbers(family, n, hi, mirror);
            |r| == hi - n + 1 && forall i :: 0 <= i < |r| ==> r[i] == n + i
  {
    MissingNumbersFrame(family, n, hi, mirror, map[]);
    EmptyMirrorRange(family, n, hi);
  }

  lemma {:induction false} EmptyMirrorRange(family: string, n: int, hi: int)
    requires n <= hi + 1
    ensures var r := MissingNumbers(family, n, hi, map[]);
            |r| == hi - n + 1 && forall i :: 0 <= i < |r| ==> r[i] == n + i
    decreases hi - n + 1
  {
    if n <= hi {
      EmptyMirrorRange(family, n + 1, hi);
    }
  }

  /** The backfill never raises: a diff update never does. */
  lemma {:induction false} BackfillNeverRaises(env: Env, s: State, ips: seq<string>, family: string, n: int, hi: int)
    ensures BackfillFrom(env, s, ips, family, n, hi).1 == Ok(())
    decreases if n <= hi then hi - n + 1 else 0
  {
    if n <= hi {
      var id := DiffId(family, n);
      if CdiffName(id) in s.mirror {
        BackfillNeverRaises(env, s, ips, family, n + 1, hi);
      } else {
        RetryRaisesOnlyIndexError(env, s, ips, id, "", 1);
        var (s1, r) := UpdateDiffSpec(env, s, ips, id);
        BackfillNeverRaises(env, s1, ips, family, n + 1, hi);
      }
    }
  }

  /** A family's backfill raises only the IndexError of its local `Version:` line or the
      ValueError of a version that is not an integer. */
  lemma BackfillSpecErrors(env: Env, s: State, ips: seq<string>, fam: Family, vers: Versions)
    ensures var r := BackfillSpec(env, s, ips, fam, vers).1;
            r.Err? ==> r.error == IndexError || r.error == ValueError
  {
    var local := LocalVersion(s.mirror, Name(fam), env.sigtool);
    if local == Ok(None) {
      BackfillWithoutLocalIsNoop(env, s, ips, fam, vers);
    } else if local.Ok? {
      var lv := local.value.value;
      if ParseInt(lv).None? || ParseInt(vers.Get(fam)).None? {
        BackfillRejectsNonNumericVersion(env, s, ips, fam, vers, lv);
      } else {
        BackfillNumericNeverRaises(env, s, ips, fam, vers, lv, ParseInt(lv).value, ParseInt(vers.Get(fam)).value);
      }
    }
  }

  /** Once both versions parse, the backfill raises nothing. */
  lemma BackfillNumericNeverRaises(env: Env, s: State, ips: seq<string>, fam: Family, vers: Versions, lv: string, lo: int, hi: int)
    requires LocalVersion(s.mirror, Name(fam), env.sigtool) == Ok(Some(lv))
    requires ParseInt(lv) == Some(lo) && ParseInt(vers.Get(fam)) == Some(hi)
    ensures BackfillSpec(env, s, ips, fam, vers).1 == Ok(())
  {
    BackfillNeverRaises(env, s, ips, Name(fam), lo, hi);
  }

  /** The backfill of a family that has no local version does nothing. */
  lemma BackfillWithoutLocalIsNoop(env: Env, s: State, ips: seq<string>, fam: Family, vers: Versions)
    requires LocalVersion(s.mirror, Name(fam), env.sigtool) == Ok(None)
    ensures BackfillSpec(env, s, ips, fam, vers) == (s, Ok(()))
  {
  }

  /** The backfill of a family with a local version is `update_diff` of the diffs missing from
      the local version to the remote one, both inclusive, once both parse as integers. */
  lemma BackfillFetchesMissingRange(env: Env, s: State, ips: seq<string>, fam: Family, vers: Versions, lv: string, lo: int, hi: int)
    requires LocalVersion(s.mirror, Name(fam), env.sigtool) == Ok(Some(lv))
    requires ParseInt(lv) == Some(lo) && ParseInt(vers.Get(fam)) == Some(hi)
    ensures BackfillSpec(env, s, ips, fam, vers) == UpdateDiffs(env, s, ips, Name(fam), MissingNumbers(Name(fam), lo, hi, s.mirror))
  {
    BackfillIsMissingInOrder(env, s, ips, Name(fam), lo, hi);
  }

  /** With none of the range's diffs in the mirror directory, the backfill is `update_diff` of
      every number from the local version to the remote one, in increasing order. */
  lemma BackfillNoDiffsPresent(env: Env, s: State, ips: seq<string>, fam: Family, vers: Versions, lv: string, lo: int, hi: int, r: seq<int>)
    requires LocalVersion(s.mirror, Name(fam), env.sigtool) == Ok(Some(lv))
    requires ParseInt(lv) == Some(lo) && ParseInt(vers.Get(fam)) == Some(hi) && lo <= hi + 1
    requires forall m :: lo <= m <= hi ==> CdiffName(DiffId(Name(fam), m)) !in s.mirror
    requires |r| == hi - lo + 1 && forall i :: 0 <= i < |r| ==> r[i] == lo + i
    ensures BackfillSpec(env, s, ips, fam, vers) == UpdateDiffs(env, s, ips, Name(fam), r)
  {
    NoDiffsMissingIsRange(Name(fam), lo, hi, s.mirror, r);
    BackfillFetchesMissingRange(env, s, ips, fam, vers, lv, lo, hi);
  }

  lemma NoDiffsMissingIsRange(family: string, lo: int, hi: int, mirror: map<string, string>, r: seq<int>)
    requires lo <= hi + 1
    requires forall m :: lo <= m <= hi ==> CdiffName(DiffId(family, m)) !in mirror
    requires |r| == hi - lo + 1 && forall i :: 0 <= i < |r| ==> r[i] == lo + i
    ensures MissingNumbers(family, lo, hi, mirror) == r
  {
    NoDiffsFetchesWholeRange(family, lo, hi, mirror);
  }

  /** With every diff of the range already in the mirror directory, the backfill does nothing. */
  lemma BackfillAllPresentIsNoop(env: Env, s: State, ips: seq<string>, fam: Family, vers: Versions, lv: string, lo: int, hi: int)
    requires LocalVersion(s.mirror, Name(fam), env.sigtool) == Ok(Some(lv))
    requires ParseInt(lv) == Some(lo) && ParseInt(vers.Get(fam)) == Some(hi)
    requires forall m :: lo <= m <= hi ==> CdiffName(DiffId(Name(fam), m)) in s.mirror
    ensures BackfillSpec(env, s, ips, fam, vers) == (s, Ok(()))
  {
    BackfillFetchesMissingRange(env, s, ips, fam, vers, lv, lo, hi);
  }

  /** A local or remote version that is not an integer raises ValueError before any request. */
  lemma BackfillRejectsNonNumericVersion(env: Env, s: State, ips: seq<string>, fam: Family, vers: Versions, lv: string)
    requires LocalVersion(s.mirror, Name(fam), env.sigtool) == Ok(Some(lv))
    requires ParseInt(lv).None? || ParseInt(vers.Get(fam)).None?
    ensures BackfillSpec(env, s, ips, fam, vers) == (s, Err(ValueError))
  {
  }
}
