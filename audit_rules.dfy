/** The decision rules of hashdeep's audit mode (hashdeep/audit.cpp) as
    functions on values: counting the known files never used, the pass/fail
    verdict, and the per-file classification written in the disabled body
    of audit_update. The class in module Audit runs these rules on its state. */
module AuditRules {

  /** hash_round and every known file's `used` stamp are uint64_t. */
  const ROUND_LIMIT: nat := 0x1_0000_0000_0000_0000

  /** One entry of the known-file list: the name it was recorded under and
      the round in which it was last credited with an exact match (0: never). */
  datatype KnownFile = KnownFile(name: string, used: nat)

  /** The audit counters of the state (s->match). */
  datatype Counters = Counters(exact: nat, partial: nat, moved: nat, unknown: nat, unused: nat)

  const NoCounts := Counters(0, 0, 0, 0, 0)

  // ---------------------------------------------------------------------
  // Unused known files and the verdict (count_unused, audit_check)
  // ---------------------------------------------------------------------

  /** Number of known files whose `used` stamp is still 0. */
  function Unused(known: seq<KnownFile>): (n: nat)
    ensures n <= |known|
    ensures n == 0 <==> forall i :: 0 <= i < |known| ==> known[i].used != 0
    ensures n == |known| <==> forall i :: 0 <= i < |known| ==> known[i].used == 0
  {
    if known == [] then 0
    else
      var last := |known| - 1;
      var before := Unused(known[..last]);
      assert forall i :: 0 <= i < last ==> known[..last][i] == known[i];
      before + (if known[last].used == 0 then 1 else 0)
  }

  /** The positions of the known files that were never used. */
  function UnusedPositions(known: seq<KnownFile>): set<int>
  {
    set i | 0 <= i < |known| && known[i].used == 0
  }

  /** The count is the number of unused positions: an independent statement
      of what count_unused computes. */
  lemma {:induction false} UnusedCountsPositions(known: seq<KnownFile>)
    ensures Unused(known) == |UnusedPositions(known)|
  {
    if known != [] {
      var last := |known| - 1;
      UnusedCountsPositions(known[..last]);
      var before := UnusedPositions(known[..last]);
      if known[last].used == 0 {
        assert UnusedPositions(known) == before + {last};
      } else {
        assert UnusedPositions(known) == before;
      }
    }
  }

  /** Crediting files never makes the unused count grow: a list in which
      every used entry is still used has at most as many unused entries. */
  lemma {:induction false} UnusedNeverGrows(before: seq<KnownFile>, after: seq<KnownFile>)
    requires |before| == |after|
    requires forall i :: 0 <= i < |before| && before[i].used != 0 ==> after[i].used != 0
    ensures Unused(after) <= Unused(before)
  {
    if before != [] {
      var last := |before| - 1;
      UnusedNeverGrows(before[..last], after[..last]);
    }
  }

  /** The audit verdict of audit_check: no known file unused, no unknown
      input file, no moved input file. */
  predicate Passes(c: Counters)
  {
    c.unused == 0 && c.unknown == 0 && c.moved == 0
  }

  /** Neither exact matches nor hash collisions decide the verdict. */
  lemma VerdictIgnoresExactAndPartial(c: Counters, exact: nat, partial: nat)
    ensures Passes(c.(exact := exact, partial := partial)) == Passes(c)
  {
  }

  // ---------------------------------------------------------------------
  // Per-file classification (the body of audit_update under #if 0)
  // ---------------------------------------------------------------------

  /** The status a hashtable entry carries for the current file. StatusOther
      stands for every status the switch sends to its default branch. */
  datatype Status =
    | StatusMatch
    | StatusNoMatch
    | StatusFileNameMismatch
    | StatusPartialMatch
    | StatusFileSizeMismatch
    | StatusUnknownError
    | StatusOther

  /** One element of the chain hashtable_contains returns: its status and the
      position, in the known-file list, of the entry it points to. */
  datatype Hit = Hit(status: Status, entry: nat)

  /** What one algorithm reports for the current file: whether it is in use,
      whether the known-hash map lookup found the digest, and the chain of
      hashtable entries (empty for a NULL result). These are inputs: the
      lookups themselves are not part of this model. */
  datatype Lookup = Lookup(inUse: bool, found: bool, chain: seq<Hit>)

  /** The four findings audit_update accumulates with logical OR. */
  datatype Flags = Flags(exact: bool, noMatch: bool, moved: bool, partial: bool)

  const NoFlags := Flags(false, false, false, false)

  /** The state of one classification: the known files, the findings so far,
      and whether a status_unknown_error ended it early. */
  datatype Scan = Scan(known: seq<KnownFile>, flags: Flags, aborted: bool)

  /** A lookup event in the order audit_update meets them: a miss, or a
      visit to one chain element. */
  datatype Event = Miss | Visit(hit: Hit)

  predicate HitsIn(chain: seq<Hit>, n: nat)
  {
    forall k :: 0 <= k < |chain| ==> chain[k].entry < n
  }

  /** Every chain element of every algorithm points into a list of n known files. */
  predicate LookupsIn(lookups: seq<Lookup>, n: nat)
  {
    forall a :: 0 <= a < |lookups| ==> HitsIn(lookups[a].chain, n)
  }

  predicate EventsIn(evs: seq<Event>, n: nat)
  {
    forall k :: 0 <= k < |evs| && evs[k].Visit? ==> evs[k].hit.entry < n
  }

  function Visits(chain: seq<Hit>): (evs: seq<Event>)
    ensures |evs| == |chain|
    ensures forall k :: 0 <= k < |chain| ==> evs[k] == Visit(chain[k])
  {
    if chain == [] then [] else [Visit(chain[0])] + Visits(chain[1..])
  }

  /** The events of one algorithm: nothing if it is not in use; otherwise a
      miss when the map lookup failed or the chain is empty, then one visit
      per chain element. */
  function Events(lk: Lookup): seq<Event>
  {
    if !lk.inUse then []
    else (if !lk.found || lk.chain == [] then [Miss] else []) + Visits(lk.chain)
  }

  /** The events of all algorithms, in algorithm order. */
  function Flatten(lookups: seq<Lookup>): seq<Event>
  {
    if lookups == [] then [] else Events(lookups[0]) + Flatten(lookups[1..])
  }

  lemma {:induction false} FlattenIn(lookups: seq<Lookup>, n: nat)
    requires LookupsIn(lookups, n)
    ensures EventsIn(Flatten(lookups), n)
  {
    if lookups != [] {
      FlattenIn(lookups[1..], n);
      assert HitsIn(lookups[0].chain, n);
    }
  }

  /** Some algorithm in use reported the hit h. */
  predicate Reported(lookups: seq<Lookup>, h: Hit)
  {
    exists a :: 0 <= a < |lookups| && lookups[a].inUse && h in lookups[a].chain
  }

  /** Some algorithm in use reported a hit with status s. */
  predicate ReportedStatus(lookups: seq<Lookup>, s: Status)
  {
    exists a, k :: 0 <= a < |lookups| && lookups[a].inUse && 0 <= k < |lookups[a].chain|
                   && lookups[a].chain[k].status == s
  }

  /** Some algorithm in use failed its map lookup or returned no chain. */
  predicate AlgorithmMissed(lookups: seq<Lookup>)
  {
    exists a :: 0 <= a < |lookups| && lookups[a].inUse && (!lookups[a].found || lookups[a].chain == [])
  }

  /** Some visit in evs carries status s. */
  predicate HasStatus(evs: seq<Event>, s: Status)
  {
    exists k :: 0 <= k < |evs| && evs[k].Visit? && evs[k].hit.status == s
  }

  /** The events of one lookup say what that algorithm reported. */
  lemma EventsReport(lk: Lookup, h: Hit, s: Status)
    ensures Visit(h) in Events(lk) <==> lk.inUse && h in lk.chain
    ensures Miss in Events(lk) <==> lk.inUse && (!lk.found || lk.chain == [])
    ensures HasStatus(Events(lk), s) <==>
      lk.inUse && exists k :: 0 <= k < |lk.chain| && lk.chain[k].status == s
  {
    if lk.inUse {
      var pre: seq<Event> := if !lk.found || lk.chain == [] then [Miss] else [];
      var vs := Visits(lk.chain);
      assert Events(lk) == pre + vs;
      HasStatusSplit(pre, vs, s);
      assert !HasStatus(pre, s);
      if h in lk.chain {
        var k :| 0 <= k < |lk.chain| && lk.chain[k] == h;
        assert vs[k] == Visit(h);
      }
      if exists k :: 0 <= k < |lk.chain| && lk.chain[k].status == s {
        var k :| 0 <= k < |lk.chain| && lk.chain[k].status == s;
        assert vs[k] == Visit(lk.chain[k]);
      }
    }
  }

  /** A visit is among the flattened events exactly when an algorithm in use
      reported that hit. */
  lemma {:induction false} FlattenVisits(lookups: seq<Lookup>, h: Hit)
    ensures Visit(h) in Flatten(lookups) <==> Reported(lookups, h)
  {
    if lookups != [] {
      FlattenVisits(lookups[1..], h);
      EventsReport(lookups[0], h, StatusOther);
      assert Flatten(lookups) == Events(lookups[0]) + Flatten(lookups[1..]);
      if Reported(lookups, h) {
        var a :| 0 <= a < |lookups| && lookups[a].inUse && h in lookups[a].chain;
        if a > 0 { assert lookups[1..][a - 1] == lookups[a]; }
      }
      if Reported(lookups[1..], h) {
        var a :| 0 <= a < |lookups[1..]| && lookups[1..][a].inUse && h in lookups[1..][a].chain;
        assert lookups[a + 1] == lookups[1..][a];
      }
    }
  }

  /** A miss is among the flattened events exactly when an algorithm in use
      failed its lookup or returned no chain. */
  lemma {:induction false} FlattenMisses(lookups: seq<Lookup>)
    ensures Miss in Flatten(lookups) <==> AlgorithmMissed(lookups)
  {
    if lookups != [] {
      FlattenMisses(lookups[1..]);
      EventsReport(lookups[0], Hit(StatusOther, 0), StatusOther);
      assert Flatten(lookups) == Events(lookups[0]) + Flatten(lookups[1..]);
      if AlgorithmMissed(lookups) {
        var a :| 0 <= a < |lookups| && lookups[a].inUse && (!lookups[a].found || lookups[a].chain == []);
        if a > 0 { assert lookups[1..][a - 1] == lookups[a]; }
      }
      if AlgorithmMissed(lookups[1..]) {
        var a :| 0 <= a < |lookups[1..]| && lookups[1..][a].inUse
                 && (!lookups[1..][a].found || lookups[1..][a].chain == []);
        assert lookups[a + 1] == lookups[1..][a];
      }
    }
  }

  /** A visit with status s is among the flattened events exactly when an
      algorithm in use reported a hit with that status. */
  lemma {:induction false} FlattenStatuses(lookups: seq<Lookup>, s: Status)
    ensures HasStatus(Flatten(lookups), s) <==> ReportedStatus(lookups, s)
  {
    if lookups != [] {
      FlattenStatuses(lookups[1..], s);
      EventsReport(lookups[0], Hit(StatusOther, 0), s);
      HasStatusSplit(Events(lookups[0]), Flatten(lookups[1..]), s);
      assert Flatten(lookups) == Events(lookups[0]) + Flatten(lookups[1..]);
      if ReportedStatus(lookups, s) {
        var a, k :| 0 <= a < |lookups| && lookups[a].inUse && 0 <= k < |lookups[a].chain|
                    && lookups[a].chain[k].status == s;
        if a > 0 { assert lookups[1..][a - 1] == lookups[a]; }
      }
      if ReportedStatus(lookups[1..], s) {
        var a, k :| 0 <= a < |lookups[1..]| && lookups[1..][a].inUse && 0 <= k < |lookups[1..][a].chain|
                    && lookups[1..][a].chain[k].status == s;
        assert lookups[a + 1] == lookups[1..][a];
      }
    }
  }

  lemma HasStatusSplit(xs: seq<Event>, ys: seq<Event>, s: Status)
    ensures HasStatus(xs + ys, s) <==> HasStatus(xs, s) || HasStatus(ys, s)
  {
    if HasStatus(xs + ys, s) {
      var k :| 0 <= k < |xs + ys| && (xs + ys)[k].Visit? && (xs + ys)[k].hit.status == s;
      if k >= |xs| { assert ys[k - |xs|] == (xs + ys)[k]; }
    }
    if HasStatus(xs, s) {
      var k :| 0 <= k < |xs| && xs[k].Visit? && xs[k].hit.status == s;
      assert (xs + ys)[k] == xs[k];
    }
    if HasStatus(ys, s) {
      var k :| 0 <= k < |ys| && ys[k].Visit? && ys[k].hit.status == s;
      var j := k + |xs|;
      assert (xs + ys)[j] == ys[k];
      assert 0 <= j < |xs + ys| && (xs + ys)[j].Visit? && (xs + ys)[j].hit.status == s;
    }
  }

  /** One event. A visit to an entry already credited in this round is
      skipped; otherwise its status decides: a match credits the entry (its
      stamp becomes the round) and is the only status that writes the stamp,
      a name mismatch means moved, a partial or size mismatch is a collision,
      an unknown error ends the classification. */
  function Step(st: Scan, ev: Event, round: nat): (r: Scan)
    requires ev.Visit? ==> ev.hit.entry < |st.known|
    ensures |r.known| == |st.known|
  {
    match ev
    case Miss => st.(flags := st.flags.(noMatch := true))
    case Visit(h) =>
      if st.known[h.entry].used == round then st
      else match h.status
        case StatusMatch =>
          st.(known := st.known[h.entry := st.known[h.entry].(used := round)],
              flags := st.flags.(exact := true))
        case StatusNoMatch => st.(flags := st.flags.(noMatch := true))
        case StatusFileNameMismatch => st.(flags := st.flags.(moved := true))
        case StatusPartialMatch => st.(flags := st.flags.(partial := true))
        case StatusFileSizeMismatch => st.(flags := st.flags.(partial := true))
        case StatusUnknownError => st.(aborted := true)
        case StatusOther => st
  }

  /** The events in order, stopping at the first unknown error. */
  function ScanEvents(st: Scan, evs: seq<Event>, round: nat): (r: Scan)
    requires EventsIn(evs, |st.known|)
    ensures |r.known| == |st.known|
    decreases |evs|
  {
    if evs == [] || st.aborted then st
    else
      assert EventsIn(evs[1..], |st.known|) by {
        forall k | 0 <= k < |evs[1..]| && evs[1..][k].Visit? ensures evs[1..][k].hit.entry < |st.known| {
          assert evs[1..][k] == evs[k + 1];
        }
      }
      ScanEvents(Step(st, evs[0], round), evs[1..], round)
  }

  /** The classification of one input file in round `round`, starting from
      no findings. */
  function Classify(known: seq<KnownFile>, round: nat, lookups: seq<Lookup>): (r: Scan)
    requires LookupsIn(lookups, |known|)
    ensures |r.known| == |known|
  {
    FlattenIn(lookups, |known|);
    ScanEvents(Scan(known, NoFlags, false), Flatten(lookups), round)
  }

  /** No known file carries the stamp of this round yet. */
  predicate Fresh(known: seq<KnownFile>, round: nat)
  {
    forall i :: 0 <= i < |known| ==> known[i].used != round
  }

  /** Every match visit in evs is to an entry already stamped with round. */
  predicate CreditsStamped(known: seq<KnownFile>, evs: seq<Event>, round: nat)
  {
    forall k :: 0 <= k < |evs| && evs[k].Visit? && evs[k].hit.status == StatusMatch ==>
      evs[k].hit.entry < |known| && known[evs[k].hit.entry].used == round
  }

  // ----- facts about ScanEvents from an arbitrary state -----

  /** A stamp changes only to the round, and only for an entry a match visit names. */
  lemma {:induction false} ScanStamps(st: Scan, evs: seq<Event>, round: nat, e: nat)
    requires EventsIn(evs, |st.known|) && e < |st.known|
    decreases |evs|
    ensures var r := ScanEvents(st, evs, round);
      r.known[e] == st.known[e] ||
      (r.known[e] == st.known[e].(used := round) && Visit(Hit(StatusMatch, e)) in evs)
  {
    if evs != [] && !st.aborted {
      var next := Step(st, evs[0], round);
      assert EventsIn(evs[1..], |st.known|) by {
        forall k | 0 <= k < |evs[1..]| && evs[1..][k].Visit? ensures evs[1..][k].hit.entry < |st.known| {
          assert evs[1..][k] == evs[k + 1];
        }
      }
      ScanStamps(next, evs[1..], round, e);
      assert forall x :: x in evs[1..] ==> x in evs;
    }
  }

  /** Findings only accumulate, and an ended classification stays ended. */
  lemma {:induction false} ScanKeepsFlags(st: Scan, evs: seq<Event>, round: nat)
    requires EventsIn(evs, |st.known|)
    decreases |evs|
    ensures var r := ScanEvents(st, evs, round);
      && (st.flags.exact ==> r.flags.exact)
      && (st.flags.noMatch ==> r.flags.noMatch)
      && (st.flags.moved ==> r.flags.moved)
      && (st.flags.partial ==> r.flags.partial)
      && (st.aborted ==> r == st)
  {
    if evs != [] && !st.aborted {
      assert EventsIn(evs[1..], |st.known|) by {
        forall k | 0 <= k < |evs[1..]| && evs[1..][k].Visit? ensures evs[1..][k].hit.entry < |st.known| {
          assert evs[1..][k] == evs[k + 1];
        }
      }
      ScanKeepsFlags(Step(st, evs[0], round), evs[1..], round);
    }
  }

  /** Each finding has a source among the events. */
  lemma {:induction false} ScanFindingSources(st: Scan, evs: seq<Event>, round: nat)
    requires EventsIn(evs, |st.known|)
    decreases |evs|
    ensures var r := ScanEvents(st, evs, round);
      && (r.flags.exact ==> st.flags.exact || HasStatus(evs, StatusMatch))
      && (r.flags.noMatch ==> st.flags.noMatch || Miss in evs || HasStatus(evs, StatusNoMatch))
      && (r.flags.moved ==> st.flags.moved || HasStatus(evs, StatusFileNameMismatch))
      && (r.flags.partial ==>
            st.flags.partial || HasStatus(evs, StatusPartialMatch) || HasStatus(evs, StatusFileSizeMismatch))
      && (r.aborted ==> st.aborted || HasStatus(evs, StatusUnknownError))
  {
    if evs != [] && !st.aborted {
      assert EventsIn(evs[1..], |st.known|) by {
        forall k | 0 <= k < |evs[1..]| && evs[1..][k].Visit? ensures evs[1..][k].hit.entry < |st.known| {
          assert evs[1..][k] == evs[k + 1];
        }
      }
      ScanFindingSources(Step(st, evs[0], round), evs[1..], round);
      HasStatusSplit([evs[0]], evs[1..], StatusMatch);
      HasStatusSplit([evs[0]], evs[1..], StatusNoMatch);
      HasStatusSplit([evs[0]], evs[1..], StatusFileNameMismatch);
      HasStatusSplit([evs[0]], evs[1..], StatusPartialMatch);
      HasStatusSplit([evs[0]], evs[1..], StatusFileSizeMismatch);
      HasStatusSplit([evs[0]], evs[1..], StatusUnknownError);
      assert [evs[0]] + evs[1..] == evs;
      assert forall x :: x in evs[1..] ==> x in evs;
    }
  }

  /** Unless the classification ends early, every entry a match visit names
      carries the round's stamp afterwards. */
  lemma {:induction false} ScanCreditsMatches(st: Scan, evs: seq<Event>, round: nat, e: nat)
    requires EventsIn(evs, |st.known|) && e < |st.known|
    decreases |evs|
    requires Visit(Hit(StatusMatch, e)) in evs
    requires !ScanEvents(st, evs, round).aborted
    ensures ScanEvents(st, evs, round).known[e].used == round
  {
    assert evs != [] && !st.aborted;
    var next := Step(st, evs[0], round);
    assert EventsIn(evs[1..], |st.known|) by {
      forall k | 0 <= k < |evs[1..]| && evs[1..][k].Visit? ensures evs[1..][k].hit.entry < |st.known| {
        assert evs[1..][k] == evs[k + 1];
      }
    }
    if evs[0] == Visit(Hit(StatusMatch, e)) {
      assert next.known[e].used == round;
      ScanStamps(next, evs[1..], round, e);
    } else {
      assert evs == [evs[0]] + evs[1..];
      ScanCreditsMatches(next, evs[1..], round, e);
    }
  }

  /** Every entry carrying the stamp of this round was credited with an exact match. */
  predicate StampsAreExact(st: Scan, round: nat)
  {
    forall i :: 0 <= i < |st.known| && st.known[i].used == round ==> st.flags.exact
  }

  /** A stamped entry is only ever stamped by a visit that also found an
      exact match: in a fresh round, a stamp with the round implies `exact`. */
  lemma {:induction false} ScanStampImpliesExact(st: Scan, evs: seq<Event>, round: nat)
    requires EventsIn(evs, |st.known|)
    decreases |evs|
    requires StampsAreExact(st, round)
    ensures StampsAreExact(ScanEvents(st, evs, round), round)
  {
    if evs != [] && !st.aborted {
      assert EventsIn(evs[1..], |st.known|) by {
        forall k | 0 <= k < |evs[1..]| && evs[1..][k].Visit? ensures evs[1..][k].hit.entry < |st.known| {
          assert evs[1..][k] == evs[k + 1];
        }
      }
      var next := Step(st, evs[0], round);
      assert StampsAreExact(next, round) by {
        if evs[0].Visit? && st.known[evs[0].hit.entry].used != round && evs[0].hit.status == StatusMatch {
          assert next.flags.exact;
        } else {
          assert next.known == st.known && (st.flags.exact ==> next.flags.exact);
        }
      }
      ScanStampImpliesExact(next, evs[1..], round);
    }
  }

  /** Once every match visit's entry is stamped, the events change no stamp. */
  lemma {:induction false} ScanIdleWhenCredited(st: Scan, evs: seq<Event>, round: nat)
    requires EventsIn(evs, |st.known|)
    decreases |evs|
    requires CreditsStamped(st.known, evs, round)
    ensures ScanEvents(st, evs, round).known == st.known
  {
    if evs != [] && !st.aborted {
      var next := Step(st, evs[0], round);
      assert next.known == st.known;
      assert EventsIn(evs[1..], |st.known|) by {
        forall k | 0 <= k < |evs[1..]| && evs[1..][k].Visit? ensures evs[1..][k].hit.entry < |st.known| {
          assert evs[1..][k] == evs[k + 1];
        }
      }
      assert CreditsStamped(next.known, evs[1..], round) by {
        forall k | 0 <= k < |evs[1..]| && evs[1..][k].Visit? && evs[1..][k].hit.status == StatusMatch
          ensures evs[1..][k].hit.entry < |next.known| && next.known[evs[1..][k].hit.entry].used == round
        {
          assert evs[1..][k] == evs[k + 1];
        }
      }
      ScanIdleWhenCredited(next, evs[1..], round);
    }
  }

  /** A miss event sets `no_match` unless the classification ends early. */
  lemma {:induction false} ScanMissSetsNoMatch(st: Scan, evs: seq<Event>, round: nat)
    requires EventsIn(evs, |st.known|)
    decreases |evs|
    requires Miss in evs
    requires !ScanEvents(st, evs, round).aborted
    ensures ScanEvents(st, evs, round).flags.noMatch
  {
    assert evs != [] && !st.aborted;
    var next := Step(st, evs[0], round);
    assert EventsIn(evs[1..], |st.known|) by {
      forall k | 0 <= k < |evs[1..]| && evs[1..][k].Visit? ensures evs[1..][k].hit.entry < |st.known| {
        assert evs[1..][k] == evs[k + 1];
      }
    }
    if evs[0] == Miss {
      ScanKeepsFlags(next, evs[1..], round);
    } else {
      assert evs == [evs[0]] + evs[1..];
      ScanMissSetsNoMatch(next, evs[1..], round);
    }
  }

  /** A visit to an entry that holds no stamp of this round and that no match
      visit names is never skipped, so its status takes effect. */
  lemma {:induction false} ScanUncreditedVisit(st: Scan, evs: seq<Event>, round: nat, h: Hit)
    requires EventsIn(evs, |st.known|) && h.entry < |st.known|
    decreases |evs|
    requires Visit(h) in evs && Visit(Hit(StatusMatch, h.entry)) !in evs
    requires st.known[h.entry].used != round
    ensures var r := ScanEvents(st, evs, round);
      && (h.status == StatusUnknownError ==> r.aborted)
      && (h.status == StatusNoMatch ==> r.aborted || r.flags.noMatch)
      && (h.status == StatusFileNameMismatch ==> r.aborted || r.flags.moved)
      && (h.status in {StatusPartialMatch, StatusFileSizeMismatch} ==> r.aborted || r.flags.partial)
  {
    assert evs != [];
    if !st.aborted {
      var next := Step(st, evs[0], round);
      assert EventsIn(evs[1..], |st.known|) by {
        forall k | 0 <= k < |evs[1..]| && evs[1..][k].Visit? ensures evs[1..][k].hit.entry < |st.known| {
          assert evs[1..][k] == evs[k + 1];
        }
      }
      if evs[0] == Visit(h) {
        ScanKeepsFlags(next, evs[1..], round);
      } else {
        assert evs == [evs[0]] + evs[1..];
        assert next.known[h.entry] == st.known[h.entry];
        ScanUncreditedVisit(next, evs[1..], round, h);
      }
    } else {
      ScanKeepsFlags(st, evs, round);
    }
  }

  // ----- the classification of one input file -----

  /** Only a match writes a stamp, and the stamp it writes is the round:
      every known file is either left as it was or credited in this round,
      and a credited file was named by a match of an algorithm in use. */
  lemma ClassifyCreditsOnlyMatches(known: seq<KnownFile>, round: nat, lookups: seq<Lookup>, e: nat)
    requires LookupsIn(lookups, |known|) && e < |known|
    ensures var r := Classify(known, round, lookups);
      r.known[e] == known[e] ||
      (r.known[e] == known[e].(used := round) && Reported(lookups, Hit(StatusMatch, e)))
  {
    FlattenIn(lookups, |known|);
    ScanStamps(Scan(known, NoFlags, false), Flatten(lookups), round, e);
    FlattenVisits(lookups, Hit(StatusMatch, e));
  }

  /** Unless an unknown error ends it, the classification credits every known
      file that an algorithm in use matched. */
  lemma ClassifyCreditsEveryMatch(known: seq<KnownFile>, round: nat, lookups: seq<Lookup>, e: nat)
    requires LookupsIn(lookups, |known|) && e < |known|
    requires Reported(lookups, Hit(StatusMatch, e))
    requires !Classify(known, round, lookups).aborted
    ensures Classify(known, round, lookups).known[e].used == round
  {
    FlattenIn(lookups, |known|);
    FlattenVisits(lookups, Hit(StatusMatch, e));
    ScanCreditsMatches(Scan(known, NoFlags, false), Flatten(lookups), round, e);
  }

  /** A classification in a real round (round 0 is the "never used" stamp)
      can only lower the number of known files never used. */
  lemma ClassifyNeverAddsUnused(known: seq<KnownFile>, round: nat, lookups: seq<Lookup>)
    requires LookupsIn(lookups, |known|) && round > 0
    ensures Unused(Classify(known, round, lookups).known) <= Unused(known)
  {
    var after := Classify(known, round, lookups).known;
    forall e | 0 <= e < |known| && known[e].used != 0
      ensures after[e].used != 0
    {
      ClassifyCreditsOnlyMatches(known, round, lookups, e);
    }
    UnusedNeverGrows(known, after);
  }

  /** Crediting is at most once per round: classifying the same lookups again
      in the same round, on the list the first pass left, changes no stamp. */
  lemma SecondPassChangesNothing(known: seq<KnownFile>, round: nat, lookups: seq<Lookup>)
    requires LookupsIn(lookups, |known|)
    requires !Classify(known, round, lookups).aborted
    ensures var once := Classify(known, round, lookups).known;
      Classify(once, round, lookups).known == once
  {
    var evs := Flatten(lookups);
    FlattenIn(lookups, |known|);
    var st := Scan(known, NoFlags, false);
    var once := ScanEvents(st, evs, round).known;
    forall k | 0 <= k < |evs| && evs[k].Visit? && evs[k].hit.status == StatusMatch
      ensures evs[k].hit.entry < |once| && once[evs[k].hit.entry].used == round
    {
      assert evs[k] == Visit(Hit(StatusMatch, evs[k].hit.entry));
      ScanCreditsMatches(st, evs, round, evs[k].hit.entry);
    }
    ScanIdleWhenCredited(Scan(once, NoFlags, false), evs, round);
  }

  /** In a fresh round, a classification that does not end early finds an
      exact match exactly when some algorithm in use reported a match. */
  lemma ExactIffReportedMatch(known: seq<KnownFile>, round: nat, lookups: seq<Lookup>)
    requires LookupsIn(lookups, |known|) && Fresh(known, round)
    requires !Classify(known, round, lookups).aborted
    ensures Classify(known, round, lookups).flags.exact <==> ReportedStatus(lookups, StatusMatch)
  {
    var evs := Flatten(lookups);
    FlattenIn(lookups, |known|);
    var st := Scan(known, NoFlags, false);
    var r := ScanEvents(st, evs, round);
    FlattenStatuses(lookups, StatusMatch);
    ScanFindingSources(st, evs, round);
    if HasStatus(evs, StatusMatch) {
      var k :| 0 <= k < |evs| && evs[k].Visit? && evs[k].hit.status == StatusMatch;
      assert evs[k] == Visit(Hit(StatusMatch, evs[k].hit.entry));
      ScanCreditsMatches(st, evs, round, evs[k].hit.entry);
      ScanStampImpliesExact(st, evs, round);
    }
  }

  /** An algorithm in use that misses makes the file unknown-evidence
      (`no_match`) even when other algorithms match; conversely `no_match`
      needs a miss or a chain element with status_no_match. */
  lemma NoMatchSourceAndTrigger(known: seq<KnownFile>, round: nat, lookups: seq<Lookup>)
    requires LookupsIn(lookups, |known|)
    requires !Classify(known, round, lookups).aborted
    ensures AlgorithmMissed(lookups) ==> Classify(known, round, lookups).flags.noMatch
    ensures Classify(known, round, lookups).flags.noMatch ==>
      AlgorithmMissed(lookups) || ReportedStatus(lookups, StatusNoMatch)
  {
    var evs := Flatten(lookups);
    FlattenIn(lookups, |known|);
    var st := Scan(known, NoFlags, false);
    FlattenStatuses(lookups, StatusNoMatch);
    FlattenMisses(lookups);
    ScanFindingSources(st, evs, round);
    if AlgorithmMissed(lookups) {
      ScanMissSetsNoMatch(st, evs, round);
    }
  }

  /** `moved` comes only from name-mismatch hits; and in a fresh round a
      name-mismatch hit on a file no algorithm matched always sets it, unless
      an unknown error ends the classification. */
  lemma MovedSourceAndTrigger(known: seq<KnownFile>, round: nat, lookups: seq<Lookup>, e: nat)
    requires LookupsIn(lookups, |known|) && e < |known| && Fresh(known, round)
    ensures var r := Classify(known, round, lookups);
      r.flags.moved ==> ReportedStatus(lookups, StatusFileNameMismatch)
    ensures var r := Classify(known, round, lookups);
      Reported(lookups, Hit(StatusFileNameMismatch, e)) && !Reported(lookups, Hit(StatusMatch, e)) && !r.aborted
      ==> r.flags.moved
  {
    var evs := Flatten(lookups);
    FlattenIn(lookups, |known|);
    var st := Scan(known, NoFlags, false);
    FlattenStatuses(lookups, StatusFileNameMismatch);
    FlattenVisits(lookups, Hit(StatusFileNameMismatch, e));
    FlattenVisits(lookups, Hit(StatusMatch, e));
    ScanFindingSources(st, evs, round);
    if Reported(lookups, Hit(StatusFileNameMismatch, e)) && !Reported(lookups, Hit(StatusMatch, e)) {
      ScanUncreditedVisit(st, evs, round, Hit(StatusFileNameMismatch, e));
    }
  }

  /** The same for collisions: `partial` comes only from partial-match or
      size-mismatch hits, and such a hit on a file no algorithm matched sets it. */
  lemma PartialSourceAndTrigger(known: seq<KnownFile>, round: nat, lookups: seq<Lookup>, h: Hit)
    requires LookupsIn(lookups, |known|) && h.entry < |known| && Fresh(known, round)
    requires h.status in {StatusPartialMatch, StatusFileSizeMismatch}
    ensures var r := Classify(known, round, lookups);
      r.flags.partial ==>
        ReportedStatus(lookups, StatusPartialMatch) || ReportedStatus(lookups, StatusFileSizeMismatch)
    ensures var r := Classify(known, round, lookups);
      Reported(lookups, h) && !Reported(lookups, Hit(StatusMatch, h.entry)) && !r.aborted
      ==> r.flags.partial
  {
    var evs := Flatten(lookups);
    FlattenIn(lookups, |known|);
    var st := Scan(known, NoFlags, false);
    FlattenStatuses(lookups, StatusPartialMatch);
    FlattenStatuses(lookups, StatusFileSizeMismatch);
    FlattenVisits(lookups, h);
    FlattenVisits(lookups, Hit(StatusMatch, h.entry));
    ScanFindingSources(st, evs, round);
    if Reported(lookups, h) && !Reported(lookups, Hit(StatusMatch, h.entry)) {
      ScanUncreditedVisit(st, evs, round, h);
    }
  }

  /** An unknown error ends the classification only through a chain element
      with that status; one on a file no algorithm matched always ends it. */
  lemma AbortSourceAndTrigger(known: seq<KnownFile>, round: nat, lookups: seq<Lookup>, e: nat)
    requires LookupsIn(lookups, |known|) && e < |known| && Fresh(known, round)
    ensures Classify(known, round, lookups).aborted ==> ReportedStatus(lookups, StatusUnknownError)
    ensures Reported(lookups, Hit(StatusUnknownError, e)) && !Reported(lookups, Hit(StatusMatch, e))
      ==> Classify(known, round, lookups).aborted
  {
    var evs := Flatten(lookups);
    FlattenIn(lookups, |known|);
    var st := Scan(known, NoFlags, false);
    FlattenStatuses(lookups, StatusUnknownError);
    FlattenVisits(lookups, Hit(StatusUnknownError, e));
    FlattenVisits(lookups, Hit(StatusMatch, e));
    ScanFindingSources(st, evs, round);
    if Reported(lookups, Hit(StatusUnknownError, e)) && !Reported(lookups, Hit(StatusMatch, e)) {
      ScanUncreditedVisit(st, evs, round, Hit(StatusUnknownError, e));
    }
  }

  // ---------------------------------------------------------------------
  // Counter resolution
  // ---------------------------------------------------------------------

  /** The counter update at the end of audit_update: exact beats no_match
      beats moved, at most one of the three counts, and a collision counts
      only when it is the file's only finding. */
  function Record(c: Counters, f: Flags): (r: Counters)
    ensures r.unused == c.unused
    ensures c.exact <= r.exact <= c.exact + 1 && c.unknown <= r.unknown <= c.unknown + 1
    ensures c.moved <= r.moved <= c.moved + 1 && c.partial <= r.partial <= c.partial + 1
    ensures r.exact > c.exact <==> f.exact
    ensures r.unknown > c.unknown <==> !f.exact && f.noMatch
    ensures r.moved > c.moved <==> !f.exact && !f.noMatch && f.moved
    ensures r.partial > c.partial <==> f.partial && !f.exact && !f.noMatch && !f.moved
    ensures (r.exact - c.exact) + (r.unknown - c.unknown) + (r.moved - c.moved)
            == (if f.exact || f.noMatch || f.moved then 1 else 0)
  {
    var resolved :=
      if f.exact then c.(exact := c.exact + 1)
      else if f.noMatch then c.(unknown := c.unknown + 1)
      else if f.moved then c.(moved := c.moved + 1)
      else c;
    if f.partial && !f.exact && !f.moved && !f.noMatch then resolved.(partial := resolved.partial + 1)
    else resolved
  }

  // ---------------------------------------------------------------------
  // Worked cases
  // ---------------------------------------------------------------------

  /** A file reported as a match by its only algorithm credits the known
      file and counts as exact; with nothing else pending the audit passes. */
  lemma CaseExactMatchPasses()
    ensures var r := Classify([KnownFile("a.txt", 0)], 1, [Lookup(true, true, [Hit(StatusMatch, 0)])]);
      && r == Scan([KnownFile("a.txt", 1)], Flags(true, false, false, false), false)
      && Passes(Record(NoCounts, r.flags).(unused := Unused(r.known)))
  {
  }

  /** A name mismatch is a move: the known file stays unused and the audit
      fails on both counts. */
  lemma CaseMovedFails()
    ensures var r := Classify([KnownFile("a.txt", 0)], 1, [Lookup(true, true, [Hit(StatusFileNameMismatch, 0)])]);
      var c := Record(NoCounts, r.flags).(unused := Unused(r.known));
      && r.known == [KnownFile("a.txt", 0)]
      && c.moved == 1 && c.unused == 1 && !Passes(c)
  {
  }

  /** A collision under one algorithm while another algorithm misses: the
      miss wins, the file counts as unknown, and the collision is not counted. */
  lemma CaseCollisionBesideMiss()
    ensures var r := Classify([KnownFile("a.txt", 0)], 1,
                              [Lookup(true, true, [Hit(StatusPartialMatch, 0)]), Lookup(true, false, [])]);
      var c := Record(NoCounts, r.flags);
      && r.flags == Flags(false, true, false, true)
      && c.unknown == 1 && c.partial == 0
  {
  }
}
