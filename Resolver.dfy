/** Mirror discovery and the version feed (clamavmirror.py `get_addrs` and `get_record`).
    The DNS queries themselves are oracles: `answers(j)` is what lookup number `j` (from 0)
    returns, with NXDOMAIN, and for TXT also a missing string, already turned into the empty
    answer as `get_ip_addresses` and `get_txt_record` do. */
module Resolver {

  /** The outcome of a bounded lookup: the first non-empty answer and the number of lookups made,
      or the number of lookups made before giving up. */
  datatype Query<X> = Answered(value: seq<X>, lookups: nat) | Exhausted(lookups: nat)

  const AddrPasses: nat := 5
  const RecordPasses: nat := 4

  /** The exit statuses of a run whose lookups are exhausted. */
  const AddrExit: int := 2
  const RecordExit: int := 3

  /** The first non-empty answer among lookups `from` .. `limit - 1`. */
  function FirstAnswer<X>(answers: nat -> seq<X>, from: nat, limit: nat): (r: Query<X>)
    requires from <= limit
    ensures r.Answered? ==> from < r.lookups <= limit && r.value == answers(r.lookups - 1) && r.value != []
    ensures r.Answered? ==> forall j :: from <= j < r.lookups - 1 ==> answers(j) == []
    ensures r.Exhausted? <==> forall j :: from <= j < limit ==> answers(j) == []
    ensures r.Exhausted? ==> r.lookups == limit
    decreases limit - from
  {
    if from == limit then Exhausted(limit)
    else if answers(from) != [] then Answered(answers(from), from + 1)
    else FirstAnswer(answers, from + 1, limit)
  }

  /** `get_addrs`: up to five A-record lookups, stopping at the first non-empty list. */
  method GetAddrs(answers: nat -> seq<string>) returns (r: Query<string>)
    ensures r == FirstAnswer(answers, 0, AddrPasses)
  {
    var passno := 1;
    while passno <= AddrPasses
      invariant 1 <= passno <= AddrPasses + 1
      invariant forall j :: 0 <= j < passno - 1 ==> answers(j) == []
    {
      var addrs := answers(passno - 1);
      if addrs != [] {
        return Answered(addrs, passno);
      }
      passno := passno + 1;
    }
    return Exhausted(AddrPasses);
  }

  /** `get_record`: up to four TXT lookups, stopping at the first non-empty record. */
  method GetRecord(answers: nat -> string) returns (r: Query<char>)
    ensures r == FirstAnswer(answers, 0, RecordPasses)
  {
    var passno := 1;
    while passno <= RecordPasses
      invariant 1 <= passno <= RecordPasses + 1
      invariant forall j :: 0 <= j < passno - 1 ==> answers(j) == []
    {
      var record := answers(passno - 1);
      if record != [] {
        return Answered(record, passno);
      }
      passno := passno + 1;
    }
    return Exhausted(RecordPasses);
  }
}
