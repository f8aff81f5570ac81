/** The nested loops over groups, bands and windows, as a walk along the list of
    jobs still to come. */
module JobWalk {
  import opened AacSyntax

  /** The jobs still to come at band i of group g, whose coefficients start at
      base; idx is the index of that band. */
  ghost function GroupRest(geo: Geo, g: nat, base: nat, i: nat, idx: nat): seq<Job>
    requires geo.Valid() && g < |geo.groups| && i <= geo.maxSfb <= idx + geo.maxSfb
  {
    GroupJobs(geo, g, base, i, idx) + Jobs(geo, g + 1, base + 128 * geo.groups[g], idx - i + geo.maxSfb)
  }

  lemma GroupRestStart(geo: Geo, g: nat, base: nat, idx: nat)
    requires geo.Valid() && g <= |geo.groups|
    ensures g < |geo.groups| ==> Jobs(geo, g, base, idx) == GroupRest(geo, g, base, 0, idx)
    ensures g == |geo.groups| ==> Jobs(geo, g, base, idx) == []
  {
  }

  lemma GroupRestStep(geo: Geo, g: nat, base: nat, i: nat, idx: nat)
    requires geo.Valid() && g < |geo.groups| && i <= geo.maxSfb && i <= idx
    ensures i < geo.maxSfb ==>
              GroupRest(geo, g, base, i, idx)
              == BandJobs(idx, base + geo.edges[i], geo.Width(i), geo.groups[g])
                  + GroupRest(geo, g, base, i + 1, idx + 1)
    ensures i == geo.maxSfb ==> GroupRest(geo, g, base, i, idx) == Jobs(geo, g + 1, base + 128 * geo.groups[g], idx)
  {
    hide BandJobs, Jobs;
    if i == geo.maxSfb {
      assert [] + Jobs(geo, g + 1, base + 128 * geo.groups[g], idx)
             == Jobs(geo, g + 1, base + 128 * geo.groups[g], idx);
    } else {
      var a, b, c := BandJobs(idx, base + geo.edges[i], geo.Width(i), geo.groups[g]),
          GroupJobs(geo, g, base, i + 1, idx + 1),
                     Jobs(geo, g + 1, base + 128 * geo.groups[g], idx - i + geo.maxSfb);
      assert (a + b) + c == a + (b + c);
    }
  }

  lemma BandJobsStep(idx: nat, base: nat, len: nat, n: nat)
    ensures BandJobs(idx, base, len, n) == if n == 0 then []
            else [Job(idx, base, len)] + BandJobs(idx, base + 128, len, n - 1)
  {
  }

  /** The first of n windows of a band, and what comes behind it. */
  lemma FirstJob(idx: nat, base: nat, len: nat, n: nat, rest: seq<Job>)
    ensures n == 0 ==> BandJobs(idx, base, len, n) + rest == rest
    ensures n > 0 ==>
            BandJobs(idx, base, len, n) + rest == [Job(idx, base, len)] + (BandJobs(idx, base + 128, len, n - 1) + rest)
  {
    BandJobsStep(idx, base, len, n);
  }

  lemma GoodHead(j: Job, rest: seq<Job>, bands: nat)
    requires GoodJobs([j] + rest, bands)
    ensures GoodJob(j, bands) && GoodJobs(rest, bands) && ([j] + rest)[0] == j && ([j] + rest)[1..] == rest
  {
    var all := [j] + rest;
    assert all[0] == j && all[1..] == rest;
    forall k | 0 <= k < |rest| ensures GoodJob(rest[k], bands) {
      assert all[k + 1] == rest[k];
    }
  }
}
