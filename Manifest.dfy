/** The version manifest: the four signature families and the parse of the TXT record
    (clamavmirror.py `main`, the `record.split(':')` and the `versions` dictionary). */
module Manifest {
  import opened Wrappers
  import opened Text

  datatype Family = Main | Daily | SafeBrowsing | Bytecode

  /** The family's name, which is also the base name of its files. */
  function Name(f: Family): string {
    match f
    case Main => "main"
    case Daily => "daily"
    case SafeBrowsing => "safebrowsing"
    case Bytecode => "bytecode"
  }

  /** The families in the order the `versions` dictionary is built, which is the order `main` visits them. */
  const Families: seq<Family> := [Main, Daily, SafeBrowsing, Bytecode]

  /** Every family but `main` has its diffs backfilled. */
  predicate Diffable(f: Family) { f != Main }

  /** The remote version of each family, as the string found in the record. */
  datatype Versions = Versions(main: string, daily: string, safebrowsing: string, bytecode: string) {
    function Get(f: Family): string {
      match f
      case Main => main
      case Daily => daily
      case SafeBrowsing => safebrowsing
      case Bytecode => bytecode
    }
  }

  /** `record.split(':')` and the `versions` dictionary: fields 1, 2, 6 and 7 are the versions of
      main, daily, safebrowsing and bytecode; a record of fewer than eight fields raises IndexError. */
  function ParseRecord(record: string): (r: Result<Versions, Crash>)
    ensures r.Ok? <==> |Split(record, ':')| >= 8
    ensures r.Err? ==> r.error == IndexError
    ensures r.Ok? ==> forall f :: ':' !in r.value.Get(f)
  {
    var fields := Split(record, ':');
    if |fields| < 8 then Err(IndexError)
    else Ok(Versions(fields[1], fields[2], fields[6], fields[7]))
  }

  /** A record written as colon-separated fields yields its fields 1, 2, 6 and 7 when it has at
      least eight of them, and fails otherwise. Every record is of this form (Text.JoinSplit). */
  lemma ParseJoinedRecord(fields: seq<string>)
    requires |fields| >= 1
    requires forall i :: 0 <= i < |fields| ==> ':' !in fields[i]
    ensures |fields| >= 8 ==> ParseRecord(Join(fields, ':')) == Ok(Versions(fields[1], fields[2], fields[6], fields[7]))
    ensures |fields| < 8 ==> ParseRecord(Join(fields, ':')) == Err(IndexError)
  {
    SplitJoin(fields, ':');
  }
}
