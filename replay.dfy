/** One pass of `reuploaderThread` over the failed-upload directory: replay
    the spooled payloads in the order the directory listing gives them,
    remove each one the server accepts, and stop at the first that is not
    delivered. The listing order and each entry's outcome are inputs. */
module Replay {
  import opened Reports
  import Uploading

  /** What happens to one listed entry: it cannot be read, or it is read and
      uploaded with some response and, if accepted, its removal succeeds or
      fails. */
  datatype EntryOutcome = ReadFails | Replayed(response: Uploading.Response, removeOk: bool)

  /** The entry is uploaded and removed, and the sweep goes on. */
  predicate Delivered(o: EntryOutcome)
  {
    o.Replayed? && Uploading.Accepted(o.response) && o.removeOk
  }

  /** The names `glob` matches with the pattern `*.gzip`: ending in ".gzip"
      and not hidden. */
  predicate MatchesSpoolPattern(name: string)
  {
    |name| >= 5 && name[|name| - 5..] == ".gzip" && name[0] != '.'
  }

  predicate Distinct(names: seq<string>)
  {
    forall i, j :: 0 <= i < j < |names| ==> names[i] != names[j]
  }

  /** `order` is one listing `glob` may return for the spool: every matching
      entry exactly once, in no particular order. */
  predicate IsListing(order: seq<string>, spool: map<string, Payload>)
  {
    && Distinct(order)
    && (forall n :: n in order ==> n in spool && MatchesSpoolPattern(n))
    && (forall n :: n in spool && MatchesSpoolPattern(n) ==> n in order)
  }

  /** Every file the shipper spools is one the next sweep lists. */
  lemma DataFileNamesAreListed(stamp: string)
    ensures MatchesSpoolPattern(DataFileName(stamp))
  {
  }

  lemma DistinctTail(names: seq<string>)
    requires Distinct(names) && names != []
    ensures Distinct(names[1..]) && names[0] !in names[1..]
  {
    forall i, j | 0 <= i < j < |names| - 1 ensures names[1..][i] != names[1..][j] {
      assert names[1..][i] == names[i + 1] && names[1..][j] == names[j + 1];
    }
  }

  /** The log entry that ends a sweep at an entry that is not delivered. */
  function StopEntry(o: EntryOutcome): LogEntry
  {
    if o.Replayed? && !Uploading.Accepted(o.response) then LogEntry("INFO", ReplayFailed)
    else LogEntry("EXCEPTION", ReplayAborted)
  }

  /** One sweep over the listed entries, as `reuploaderThread` runs it. */
  function Sweep(s: ReporterState, order: seq<string>, outcome: string -> EntryOutcome): (r: ReporterState)
    requires Distinct(order) && forall n :: n in order ==> n in s.spool
    ensures r.buffer == s.buffer && r.archive == s.archive
    ensures r.spool.Keys <= s.spool.Keys
    ensures s.sent <= r.sent && |r.sent| <= |s.sent| + |order|
    decreases |order|
  {
    if order == [] then s
    else
      var name := order[0];
      match outcome(name)
      case ReadFails => s.(log := s.log + [StopEntry(ReadFails)])
      case Replayed(response, removeOk) =>
        var tried := s.(sent := s.sent + [s.spool[name]]);
        if !Uploading.Accepted(response) || !removeOk then
          tried.(log := s.log + [StopEntry(outcome(name))])
        else
          DistinctTail(order);
          Sweep(tried.(spool := s.spool - {name}), order[1..], outcome)
  }

  /** The number of listed entries delivered before the first that is not. */
  function DeliveredPrefix(order: seq<string>, outcome: string -> EntryOutcome): (k: nat)
    ensures k <= |order|
    ensures forall i :: 0 <= i < k ==> Delivered(outcome(order[i]))
    ensures k < |order| ==> !Delivered(outcome(order[k]))
  {
    if order == [] then 0
    else if Delivered(outcome(order[0])) then 1 + DeliveredPrefix(order[1..], outcome)
    else 0
  }

  /** The spool without the given names. */
  function Without(spool: map<string, Payload>, names: seq<string>): (m: map<string, Payload>)
    ensures forall n :: n in m <==> n in spool && n !in names
  {
    map n | n in spool && n !in names :: spool[n]
  }

  /** The payloads of the given entries, in listing order. */
  function Payloads(spool: map<string, Payload>, names: seq<string>): seq<Payload>
    requires forall n :: n in names ==> n in spool
  {
    if names == [] then [] else [spool[names[0]]] + Payloads(spool, names[1..])
  }

  lemma {:induction false} PayloadsUnaffected(spool: map<string, Payload>, gone: string, names: seq<string>)
    requires forall n :: n in names ==> n in spool && n != gone
    ensures Payloads(spool - {gone}, names) == Payloads(spool, names)
  {
    if names != [] {
      assert forall n :: n in names[1..] ==> n in names;
      PayloadsUnaffected(spool, gone, names[1..]);
      assert (spool - {gone})[names[0]] == spool[names[0]];
    }
  }

  /** A delivered first entry: it is uploaded and removed, and the sweep
      goes on with the rest of the listing. */
  lemma SweepDeliveredStep(s: ReporterState, order: seq<string>, outcome: string -> EntryOutcome)
    requires Distinct(order) && forall n :: n in order ==> n in s.spool
    requires order != [] && Delivered(outcome(order[0]))
    ensures Distinct(order[1..]) && order[0] !in order[1..]
    ensures forall n :: n in order[1..] ==> n in s.spool - {order[0]}
    ensures Sweep(s, order, outcome)
            == Sweep(s.(sent := s.sent + [s.spool[order[0]]], spool := s.spool - {order[0]}), order[1..], outcome)
    ensures DeliveredPrefix(order, outcome) == 1 + DeliveredPrefix(order[1..], outcome)
  {
    DistinctTail(order);
    assert forall n :: n in order[1..] ==> n in order;
  }

  /** The entries a sweep removes are exactly the delivered prefix of the
      listing. */
  lemma {:induction false} SweepSpool(s: ReporterState, order: seq<string>, outcome: string -> EntryOutcome)
    requires Distinct(order) && forall n :: n in order ==> n in s.spool
    ensures Sweep(s, order, outcome).spool == Without(s.spool, order[..DeliveredPrefix(order, outcome)])
    decreases |order|
  {
    var k := DeliveredPrefix(order, outcome);
    if order != [] && Delivered(outcome(order[0])) {
      var name := order[0];
      SweepDeliveredStep(s, order, outcome);
      var t := s.(sent := s.sent + [s.spool[name]], spool := s.spool - {name});
      SweepSpool(t, order[1..], outcome);
      var done := order[1..][..k - 1];
      assert order[..k] == [name] + done;
      assert forall n :: n in order[..k] <==> n == name || n in done;
      assert Without(t.spool, done) == Without(s.spool, order[..k]);
    } else {
      assert order[..k] == [];
      assert Sweep(s, order, outcome).spool == s.spool;
      assert Without(s.spool, []) == s.spool;
    }
  }

  /** The uploads a sweep attempts: the delivered prefix in listing order,
      then the entry that stops it if it was read, and nothing after. */
  lemma {:induction false} SweepSent(s: ReporterState, order: seq<string>, outcome: string -> EntryOutcome)
    requires Distinct(order) && forall n :: n in order ==> n in s.spool
    ensures var k := DeliveredPrefix(order, outcome);
            Sweep(s, order, outcome).sent
              == s.sent + Payloads(s.spool, order[..k])
                 + (if k < |order| && outcome(order[k]).Replayed? then [s.spool[order[k]]] else [])
    decreases |order|
  {
    var k := DeliveredPrefix(order, outcome);
    if order != [] && Delivered(outcome(order[0])) {
      var name := order[0];
      var rest := order[1..];
      SweepDeliveredStep(s, order, outcome);
      var t := s.(sent := s.sent + [s.spool[name]], spool := s.spool - {name});
      SweepSent(t, rest, outcome);
      assert order[..k] == [name] + rest[..k - 1];
      assert forall n :: n in rest[..k - 1] ==> n in rest;
      PayloadsUnaffected(s.spool, name, rest[..k - 1]);
      assert Payloads(s.spool, order[..k]) == [s.spool[name]] + Payloads(s.spool, rest[..k - 1]);
      if k < |order| {
        assert rest[k - 1] == order[k];
        assert t.spool[order[k]] == s.spool[order[k]];
      }
    } else {
      assert order[..k] == [];
      assert Payloads(s.spool, order[..k]) == [];
    }
  }

  /** A sweep logs one entry if it stops early and nothing otherwise. */
  lemma {:induction false} SweepLog(s: ReporterState, order: seq<string>, outcome: string -> EntryOutcome)
    requires Distinct(order) && forall n :: n in order ==> n in s.spool
    ensures var k := DeliveredPrefix(order, outcome);
            Sweep(s, order, outcome).log == s.log + (if k < |order| then [StopEntry(outcome(order[k]))] else [])
    decreases |order|
  {
    if order != [] && Delivered(outcome(order[0])) {
      var name := order[0];
      SweepDeliveredStep(s, order, outcome);
      var t := s.(sent := s.sent + [s.spool[name]], spool := s.spool - {name});
      SweepLog(t, order[1..], outcome);
    }
  }

  /** What one sweep does: with k the number of leading delivered entries,
      exactly the first k are removed, their payloads are uploaded in listing
      order, the entry that stops the sweep is attempted at most once, nothing
      after it is attempted, and at most one entry is logged. */
  lemma SweepRemovesDeliveredPrefix(s: ReporterState, order: seq<string>, outcome: string -> EntryOutcome)
    requires Distinct(order) && forall n :: n in order ==> n in s.spool
    ensures var k := DeliveredPrefix(order, outcome);
            var r := Sweep(s, order, outcome);
            && r.spool == Without(s.spool, order[..k])
            && r.sent == s.sent + Payloads(s.spool, order[..k])
                         + (if k < |order| && outcome(order[k]).Replayed? then [s.spool[order[k]]] else [])
            && r.log == s.log + (if k < |order| then [StopEntry(outcome(order[k]))] else [])
  {
    SweepSpool(s, order, outcome);
    SweepSent(s, order, outcome);
    SweepLog(s, order, outcome);
  }

  /** A sweep whose first entry is not delivered removes nothing: the spool
      and its listing order are left as they were for the next sweep. */
  lemma SweepFirstFailureRemovesNone(s: ReporterState, order: seq<string>, outcome: string -> EntryOutcome)
    requires IsListing(order, s.spool) && order != []
    requires !Delivered(outcome(order[0]))
    ensures Sweep(s, order, outcome).spool == s.spool
    ensures |Sweep(s, order, outcome).sent| <= |s.sent| + 1
  {
  }

  /** A sweep stopped by entry k: the first k entries are gone, the rest are
      still spooled with their payloads, form a listing of the spool in the
      same relative order, and no upload was attempted after entry k. */
  lemma SweepStopsAtFirstFailure(s: ReporterState, order: seq<string>, outcome: string -> EntryOutcome)
    requires IsListing(order, s.spool)
    requires DeliveredPrefix(order, outcome) < |order|
    ensures var k := DeliveredPrefix(order, outcome);
            var r := Sweep(s, order, outcome);
            && (forall i :: 0 <= i < k ==> order[i] !in r.spool)
            && (forall i :: k <= i < |order| ==> order[i] in r.spool && r.spool[order[i]] == s.spool[order[i]])
            && IsListing(order[k..], r.spool)
            && |r.sent| <= |s.sent| + k + 1
  {
    var k := DeliveredPrefix(order, outcome);
    SweepSpool(s, order, outcome);
    SweepSent(s, order, outcome);
    PayloadsLength(s.spool, order[..k]);
    RemainingListing(order, k, s.spool);
  }

  /** Removing a prefix of a listing leaves the rest of it, in the same
      order, as a listing of what remains. */
  lemma RemainingListing(order: seq<string>, k: nat, spool: map<string, Payload>)
    requires IsListing(order, spool) && k <= |order|
    ensures var m := Without(spool, order[..k]);
            && (forall i :: 0 <= i < k ==> order[i] !in m)
            && (forall i :: k <= i < |order| ==> order[i] in m && m[order[i]] == spool[order[i]])
            && IsListing(order[k..], m)
  {
    var m := Without(spool, order[..k]);
    forall i | 0 <= i < k ensures order[i] !in m {
      assert order[..k][i] == order[i];
    }
    forall i | k <= i < |order| ensures order[i] !in order[..k] {
      forall j | 0 <= j < k ensures order[..k][j] != order[i] {
        assert order[..k][j] == order[j];
      }
    }
    var rest := order[k..];
    assert Distinct(rest) by {
      forall i, j | 0 <= i < j < |rest| ensures rest[i] != rest[j] {
        assert rest[i] == order[k + i] && rest[j] == order[k + j];
      }
    }
    forall n | n in rest ensures n in m && MatchesSpoolPattern(n) {
      var i :| 0 <= i < |rest| && rest[i] == n;
      assert order[k + i] == n;
    }
    forall n | n in m && MatchesSpoolPattern(n) ensures n in rest {
      var i :| 0 <= i < |order| && order[i] == n;
      assert i >= k;
      assert rest[i - k] == n;
    }
  }

  lemma {:induction false} PayloadsLength(spool: map<string, Payload>, names: seq<string>)
    requires forall n :: n in names ==> n in spool
    ensures |Payloads(spool, names)| == |names|
  {
    if names != [] {
      PayloadsLength(spool, names[1..]);
    }
  }

  /** A sweep in which every listed entry is delivered uploads each spooled
      payload once, in listing order, logs nothing, and leaves only the files
      the pattern does not match; a spool of shipper files ends empty. */
  lemma SweepAllDelivered(s: ReporterState, order: seq<string>, outcome: string -> EntryOutcome)
    requires IsListing(order, s.spool)
    requires forall i :: 0 <= i < |order| ==> Delivered(outcome(order[i]))
    ensures var r := Sweep(s, order, outcome);
            && r.sent == s.sent + Payloads(s.spool, order)
            && r.log == s.log
            && (forall n :: n in r.spool <==> n in s.spool && !MatchesSpoolPattern(n))
            && ((forall n :: n in s.spool ==> MatchesSpoolPattern(n)) ==> r.spool == map[])
  {
    var k := DeliveredPrefix(order, outcome);
    assert k == |order|;
    assert order[..k] == order;
    SweepRemovesDeliveredPrefix(s, order, outcome);
  }
}
