/** What the payload callback of src/signing.cpp does to each payload of a package. */
module PayloadJob {
  import opened Wire
  import opened Cms
  import opened PeTable
  import Staging
  import Transcripts

  /** What the callback signs with. */
  datatype Job = Job(options: Staging.Options, sha: Hash)

  predicate PeCandidate(payload: Bytes) { |payload| >= 2 && payload[0] == 0x4d && payload[1] == 0x5a }

  /** `was` had no signature, and the answers in `log` show how `now` was made from it. */
  ghost predicate SignedBy(job: Job, log: seq<Staging.Event>, was: Bytes, now: Bytes)
  {
    && CertTable(was) == Ok(None)
    && exists e, from :: Transcripts.Proves(e, log, from, Staging.Pe, false, job.options.timestamp, job.sha, was, now)
  }

  /** An image was signed, or kept because it already is; anything else was kept. */
  ghost predicate Treated(job: Job, log: seq<Staging.Event>, was: Bytes, now: Bytes, signed: bool)
  {
    if signed then PeCandidate(was) && SignedBy(job, log, was, now)
    else now == was && (PeCandidate(was) ==> HasSignedTable(was))
  }

  ghost predicate TreatedAt(job: Job, log: seq<Staging.Event>, original: map<nat, Bytes>, payloads: map<nat, Bytes>,
                            changed: set<nat>, p: nat)
  {
    p in original && p in payloads && Treated(job, log, original[p], payloads[p], p in changed)
  }

  /**
   * Payloads below `next` have been through the callback, the others up to `count` have not. Nothing is
   * claimed of a callback other than the one of src/signing.cpp.
   */
  ghost predicate Progress(job: Option<Job>, log: seq<Staging.Event>, original: map<nat, Bytes>,
                           payloads: map<nat, Bytes>, changed: set<nat>, next: nat, count: nat)
  {
    job.Some? ==>
      && (forall p: nat :: p < next ==> TreatedAt(job.value, log, original, payloads, changed, p))
      && (forall p: nat :: next <= p < count ==> p in original && p in payloads && payloads[p] == original[p])
  }

  lemma ProgressStarts(job: Option<Job>, log: seq<Staging.Event>, payloads: map<nat, Bytes>, count: nat)
    requires forall p: nat :: p < count ==> p in payloads
    ensures Progress(job, log, payloads, payloads, {}, 0, count)
  {
  }

  lemma SignedByGrows(job: Job, a: seq<Staging.Event>, b: seq<Staging.Event>, was: Bytes, now: Bytes)
    requires SignedBy(job, a, was, now) && a <= b
    ensures SignedBy(job, b, was, now)
  {
    hide Transcripts.Proves, CertTable;
    var e, from :| Transcripts.Proves(e, a, from, Staging.Pe, false, job.options.timestamp, job.sha, was, now);
    Transcripts.ProvesGrows(e, a, b, from, Staging.Pe, false, job.options.timestamp, job.sha, was, now);
  }

  lemma TreatedGrows(job: Job, a: seq<Staging.Event>, b: seq<Staging.Event>, original: map<nat, Bytes>,
                     payloads: map<nat, Bytes>, changed: set<nat>, p: nat)
    requires TreatedAt(job, a, original, payloads, changed, p) && a <= b
    ensures TreatedAt(job, b, original, payloads, changed, p)
  {
    hide SignedBy;
    if p in changed { SignedByGrows(job, a, b, original[p], payloads[p]); }
  }

  /** The log has grown to `later`, and payload `p` has been through the callback. */
  lemma ProgressStep(job: Option<Job>, log: seq<Staging.Event>, later: seq<Staging.Event>, original: map<nat, Bytes>,
                     before: map<nat, Bytes>, after: map<nat, Bytes>, changed: set<nat>, signed: bool, p: nat,
                     count: nat)
    requires Progress(job, log, original, before, changed, p, count) && p < count && p !in changed && log <= later
    requires p in before && p in after && after == before[p := after[p]]
    requires job.Some? ==> Treated(job.value, later, before[p], after[p], signed)
    ensures Progress(job, later, original, after, if signed then changed + {p} else changed, p + 1, count)
  {
    hide Treated;
    var now := if signed then changed + {p} else changed;
    if job.Some? {
      forall q: nat | q < p + 1 ensures TreatedAt(job.value, later, original, after, now, q) {
        if q < p {
          assert TreatedAt(job.value, log, original, before, changed, q);
          TreatedGrows(job.value, log, later, original, before, changed, q);
        }
      }
    }
  }

  // ----- payloads that were preserved

  /** The images below `next` that were not signed. */
  ghost function Kept(original: map<nat, Bytes>, changed: set<nat>, next: nat): set<nat>
  {
    set p: nat | p in original && p < next && PeCandidate(original[p]) && p !in changed
  }

  /** One payload further: an image that was not signed is one more that was kept. */
  lemma KeptStep(original: map<nat, Bytes>, changed: set<nat>, signed: bool, p: nat)
    requires p in original && p !in changed
    ensures var now := if signed then changed + {p} else changed;
            |Kept(original, now, p + 1)| ==
            |Kept(original, changed, p)| + if PeCandidate(original[p]) && !signed then 1 else 0
  {
    var now := if signed then changed + {p} else changed;
    if PeCandidate(original[p]) && !signed {
      assert Kept(original, now, p + 1) == Kept(original, changed, p) + {p};
    } else {
      assert Kept(original, now, p + 1) == Kept(original, changed, p);
    }
  }
}
