/** The audit state of hashdeep (hashdeep/audit.cpp): the known-file list
    whose `used` stamps the audit writes, the round counter, and the match
    counters, with the four audit operations as methods on it. */
module Audit {
  import opened AuditRules

  const EXIT_SUCCESS: int := 0
  const EXIT_FAILURE: int := 1

  /** What audit_update reports: the file's findings were recorded; a chain
      element with status_unknown_error ended it (the source returns that
      status); or the round counter wrapped (the source calls fatal_error). */
  datatype UpdateOutcome = Recorded(flags: Flags) | UnknownError | TooManyInputFiles

  class AuditState {
    /** s->known: the known-file list. */
    var known: seq<KnownFile>
    /** s->hash_round. */
    var hashRound: nat
    /** s->match. */
    var counters: Counters

    /** The round counter fits in 64 bits and no stamp is ahead of it. */
    ghost predicate Valid()
      reads this
    {
      && hashRound < ROUND_LIMIT
      && forall i :: 0 <= i < |known| ==> known[i].used <= hashRound
    }

    /** A freshly loaded known-file list: nothing used, no round yet, no counts. */
    constructor (names: seq<string>)
      ensures Valid()
      ensures |known| == |names|
      ensures forall i :: 0 <= i < |names| ==> known[i] == KnownFile(names[i], 0)
      ensures hashRound == 0 && counters == NoCounts
    {
      known := seq(|names|, i requires 0 <= i < |names| => KnownFile(names[i], 0));
      hashRound := 0;
      counters := NoCounts;
    }

    /** hashlist_t::count_unused: one pass over the list counting the entries
        never credited; the list is only read. */
    method CountUnused() returns (count: nat)
      ensures count == Unused(known)
      ensures count == |UnusedPositions(known)|
    {
      count := 0;
      var i := 0;
      while i < |known|
        invariant 0 <= i <= |known|
        invariant count == Unused(known[..i])
      {
        assert known[..i + 1][..i] == known[..i];
        if known[i].used == 0 {
          count := count + 1;
        }
        i := i + 1;
      }
      assert known[..|known|] == known;
      UnusedCountsPositions(known);
    }

    /** audit_check: stores the unused count and passes exactly when every
        known file was used and no input file was unknown or moved. */
    method AuditCheck() returns (pass: bool)
      modifies this`counters
      ensures counters == old(counters).(unused := Unused(known))
      ensures pass == Passes(counters)
      ensures pass <==>
        && (forall i :: 0 <= i < |known| ==> known[i].used != 0)
        && counters.unknown == 0 && counters.moved == 0
    {
      var unused := CountUnused();
      counters := counters.(unused := unused);
      pass := counters.unused == 0 && counters.unknown == 0 && counters.moved == 0;
    }

    /** display_audit_results, without its messages: the exit status of the
        audit. */
    method DisplayAuditResults() returns (status: int)
      modifies this`counters
      ensures counters == old(counters).(unused := Unused(known))
      ensures status == (if Passes(counters) then EXIT_SUCCESS else EXIT_FAILURE)
    {
      status := EXIT_SUCCESS;
      var pass := AuditCheck();
      if !pass {
        status := EXIT_FAILURE;
      }
    }

    /** audit_update, as written in its disabled body: take the next round,
        run the per-algorithm lookups (given as `lookups`, one per algorithm)
        over the known-file list, and resolve the findings into the counters. */
    method AuditUpdate(lookups: seq<Lookup>) returns (outcome: UpdateOutcome)
      requires Valid()
      requires LookupsIn(lookups, |known|)
      modifies this
      ensures hashRound == (old(hashRound) + 1) % ROUND_LIMIT
      ensures outcome == TooManyInputFiles <==> old(hashRound) + 1 == ROUND_LIMIT
      ensures outcome == TooManyInputFiles ==> known == old(known) && counters == old(counters)
      ensures outcome != TooManyInputFiles ==>
        var r := Classify(old(known), hashRound, lookups);
        && Valid()
        && known == r.known
        && (outcome == UnknownError <==> r.aborted)
        && (outcome == UnknownError ==> counters == old(counters))
        && (outcome.Recorded? ==> outcome.flags == r.flags && counters == Record(old(counters), r.flags))
    {
      var myRound := hashRound;
      hashRound := (hashRound + 1) % ROUND_LIMIT;
      if myRound > hashRound {
        return TooManyInputFiles;
      }
      assert hashRound == myRound + 1;
      ghost var known0 := known;
      FlattenIn(lookups, |known|);
      ghost var goal := Classify(known0, hashRound, lookups);
      var flags := NoFlags;
      var a := 0;
      while a < |lookups|
        invariant 0 <= a <= |lookups|
        invariant |known| == |known0| && hashRound == myRound + 1 && counters == old(counters)
        invariant EventsIn(Flatten(lookups[a..]), |known|)
        invariant goal == ScanEvents(Scan(known, flags, false), Flatten(lookups[a..]), hashRound)
      {
        var lk := lookups[a];
        ghost var rest := Flatten(lookups[a + 1..]);
        ScanLookupThenRest(Scan(known, flags, false), lookups[a..], hashRound);
        assert lookups[a..][0] == lk && lookups[a..][1..] == lookups[a + 1..];
        assert HitsIn(lk.chain, |known|);
        if lk.inUse {
          if !lk.found || lk.chain == [] {
            flags := flags.(noMatch := true);
          }
          var aborted;
          flags, aborted := CreditChain(lk.chain, flags);
          if aborted {
            assert goal == Scan(known, flags, true);
            ClassifiedValid(known0, myRound, hashRound, lookups);
            return UnknownError;
          }
        }
        a := a + 1;
      }
      assert goal == Scan(known, flags, false);
      ClassifiedValid(known0, myRound, hashRound, lookups);

      if flags.exact {
        counters := counters.(exact := counters.exact + 1);
      } else if flags.noMatch {
        counters := counters.(unknown := counters.unknown + 1);
      } else if flags.moved {
        counters := counters.(moved := counters.moved + 1);
      }
      if flags.partial && !flags.exact && !flags.moved && !flags.noMatch {
        counters := counters.(partial := counters.partial + 1);
      }
      return Recorded(flags);
    }

    /** The inner loop of audit_update: walk one algorithm's chain, crediting
        each known file matched and not yet credited in this round, and OR-ing
        the findings into `flags`; stop at status_unknown_error. */
    method CreditChain(chain: seq<Hit>, flags0: Flags) returns (flags: Flags, aborted: bool)
      requires HitsIn(chain, |known|)
      modifies this`known
      ensures EventsIn(Visits(chain), |old(known)|)
      ensures Scan(known, flags, aborted) == ScanEvents(Scan(old(known), flags0, false), Visits(chain), hashRound)
    {
      ghost var goal := ScanEvents(Scan(known, flags0, false), Visits(chain), hashRound);
      flags, aborted := flags0, false;
      var j := 0;
      while j < |chain|
        invariant 0 <= j <= |chain| && |known| == |old(known)|
        invariant goal == ScanEvents(Scan(known, flags, false), Visits(chain[j..]), hashRound)
      {
        var h := chain[j];
        assert chain[j..][0] == h && chain[j..][1..] == chain[j + 1..];
        if known[h.entry].used != hashRound {
          match h.status {
            case StatusMatch =>
              known := known[h.entry := known[h.entry].(used := hashRound)];
              flags := flags.(exact := true);
            case StatusNoMatch =>
              flags := flags.(noMatch := true);
            case StatusFileNameMismatch =>
              flags := flags.(moved := true);
            case StatusPartialMatch =>
              flags := flags.(partial := true);
            case StatusFileSizeMismatch =>
              flags := flags.(partial := true);
            case StatusUnknownError =>
              aborted := true;
              return;
            case StatusOther =>
          }
        }
        j := j + 1;
      }
    }
  }

  /** Scanning the events of a list of lookups is scanning the first
      lookup's events (its miss, then its chain) and then the rest. */
  lemma ScanLookupThenRest(st: Scan, lookups: seq<Lookup>, round: nat)
    requires lookups != [] && !st.aborted
    requires EventsIn(Flatten(lookups), |st.known|)
    ensures var lk := lookups[0];
      var marked := if lk.inUse && (!lk.found || lk.chain == []) then st.(flags := st.flags.(noMatch := true)) else st;
      && (lk.inUse ==> EventsIn(Visits(lk.chain), |st.known|))
      && EventsIn(Flatten(lookups[1..]), |st.known|)
      && ScanEvents(st, Flatten(lookups), round) ==
         if lk.inUse then ScanEvents(ScanEvents(marked, Visits(lk.chain), round), Flatten(lookups[1..]), round)
         else ScanEvents(st, Flatten(lookups[1..]), round)
  {
    var lk, rest := lookups[0], Flatten(lookups[1..]);
    ScanSplit(st, Events(lk), rest, round);
    if lk.inUse {
      if !lk.found || lk.chain == [] {
        assert Events(lk) == [Miss] + Visits(lk.chain);
        ScanSplit(st, [Miss], Visits(lk.chain), round);
        assert ScanEvents(st, [Miss], round) == st.(flags := st.flags.(noMatch := true));
      } else {
        assert Events(lk) == Visits(lk.chain);
      }
    }
  }

  /** Scanning a concatenation is scanning its parts one after the other. */
  lemma {:induction false} ScanSplit(st: Scan, xs: seq<Event>, ys: seq<Event>, round: nat)
    requires EventsIn(xs + ys, |st.known|)
    decreases |xs|
    ensures EventsIn(xs, |st.known|)
    ensures EventsIn(ys, |ScanEvents(st, xs, round).known|)
    ensures ScanEvents(st, xs + ys, round) == ScanEvents(ScanEvents(st, xs, round), ys, round)
  {
    assert forall k :: 0 <= k < |xs| ==> xs[k] == (xs + ys)[k];
    assert forall k :: 0 <= k < |ys| ==> ys[k] == (xs + ys)[k + |xs|];
    if xs == [] {
      assert xs + ys == ys;
    } else if !st.aborted {
      assert (xs + ys)[0] == xs[0] && (xs + ys)[1..] == xs[1..] + ys;
      var next := Step(st, xs[0], round);
      ScanSplit(next, xs[1..], ys, round);
      assert ScanEvents(st, xs + ys, round) == ScanEvents(next, xs[1..] + ys, round);
      assert ScanEvents(st, xs, round) == ScanEvents(next, xs[1..], round);
    }
  }

  /** After a classification in a round that did not wrap, every stamp is at
      most the new round. */
  lemma ClassifiedValid(known: seq<KnownFile>, oldRound: nat, round: nat, lookups: seq<Lookup>)
    requires LookupsIn(lookups, |known|)
    requires round == oldRound + 1 && round < ROUND_LIMIT
    requires forall i :: 0 <= i < |known| ==> known[i].used <= oldRound
    ensures var r := Classify(known, round, lookups);
      forall i :: 0 <= i < |r.known| ==> r.known[i].used <= round
  {
    forall i | 0 <= i < |known|
      ensures Classify(known, round, lookups).known[i].used <= round
    {
      ClassifyCreditsOnlyMatches(known, round, lookups, i);
    }
  }
}
