/** The claim of core/db.py when the `jobs` table also holds rows whose id is
    NULL. `id TEXT PRIMARY KEY` does not forbid NULL (SQLite admits NULL in a
    primary key that is not an INTEGER one), and enqueue stores whatever id
    the caller gives. The sub-select may return such a row's id, and
    `WHERE id = NULL` then matches no row. The rest of the model keeps ids
    non-null, which is the behaviour `Store.ClaimNext` states. */
module NullIds {
  import opened Wrappers
  import opened Jobs
  import opened Store

  /** The NULL-id rows after the due-retry sweep, which updates them like any
      other row. */
  function SweepRows(rows: seq<Job>, now: int): (r: seq<Job>)
    ensures |r| == |rows|
    ensures forall i :: 0 <= i < |rows| ==>
      (DueRetry(rows[i], now) ==> r[i].state == Pending && OnlyStateChanged(rows[i], r[i]))
      && (!DueRetry(rows[i], now) ==> r[i] == rows[i])
  {
    seq(|rows|, i requires 0 <= i < |rows| =>
      if DueRetry(rows[i], now) then rows[i].(state := Pending, updatedAt := now) else rows[i])
  }

  /** Some eligible NULL-id row sorts strictly before every eligible keyed
      row, so the sub-select returns NULL. Rows that tie with the first keyed
      row are left to the keyed row. */
  predicate NullIdLeads(jobs: map<string, Job>, rows: seq<Job>, now: int) {
    exists i :: 0 <= i < |rows| && Eligible(rows[i], now)
      && forall k :: k in jobs && Eligible(jobs[k], now) ==> SortsBefore(rows[i], jobs[k])
  }

  /** `claim_next` as written, over the keyed rows `q` and the NULL-id rows
      `rows`. */
  function ClaimAsWritten(q: Queue, rows: seq<Job>, name: string, now: int): (r: Claim)
    ensures r.claimed.None? ==> r.q.jobs == Sweep(q.jobs, now)
    ensures r.claimed.Some? ==> r == ClaimNext(q, name, now)
    ensures r.claimed.None? <==>
      NullIdLeads(Sweep(q.jobs, now), SweepRows(rows, now), now)
      || forall k :: k in Sweep(q.jobs, now) ==> !Eligible(Sweep(q.jobs, now)[k], now)
  {
    var swept := Sweep(q.jobs, now);
    if NullIdLeads(swept, SweepRows(rows, now), now) then Claim(Queue(swept, q.runs), None)
    else ClaimNext(q, name, now)
  }

  /** One pending job with a NULL id and priority 0 stalls the queue: a claim
      finds nothing although the keyed job "a" is pending and due. The keyed
      model claims "a". */
  lemma NullIdStallsClaims(name: string, now: int)
    ensures var a := Job("true", Pending, 0, 3, 100, now, now, None, Some(now), None, None, None);
      var q := Queue(map["a" := a], []);
      && Eligible(a, now)
      && ClaimAsWritten(q, [a.(priority := 0)], name, now).claimed.None?
      && ClaimNext(q, name, now).claimed == Some("a")
  {
    var a := Job("true", Pending, 0, 3, 100, now, now, None, Some(now), None, None, None);
    var q := Queue(map["a" := a], []);
    var rows := [a.(priority := 0)];
    var swept := Sweep(q.jobs, now);
    assert swept.Keys == {"a"};
    assert SweepRows(rows, now)[0] == rows[0];
    assert NullIdLeads(swept, SweepRows(rows, now), now) by {
      forall k | k in swept && Eligible(swept[k], now)
        ensures SortsBefore(SweepRows(rows, now)[0], swept[k])
      {
        assert k == "a";
      }
    }
    assert Eligible(swept["a"], now);
  }
}
