/**
 * The instance registry of `register_instance` (main.py:119-171): an upsert
 * of the customer's row and, when an existing row's version changes, one
 * appended version_history entry.
 */
module Registry {
  import opened Schema

  /** The instance table after a registration. */
  function Upserted(instances: map<CustomerId, Instance>, r: Registration, now: int): (m: map<CustomerId, Instance>)
    ensures m.Keys == instances.Keys + {r.customerId}
    ensures forall c :: c in instances && c != r.customerId ==> m[c] == instances[c]
    ensures var row := m[r.customerId];
      && row.version == r.version && row.url == r.url && row.healthStatus == r.health
      && row.lastHeartbeat == r.timestamp && row.totalUsers == r.totalUsers && row.totalMessages == r.totalMessages
    ensures r.customerId in instances ==> m[r.customerId].firstSeen == instances[r.customerId].firstSeen
    ensures r.customerId in instances ==> |m| == |instances|
    ensures r.customerId !in instances ==> m[r.customerId].firstSeen == now && |m| == |instances| + 1
  {
    var cid := r.customerId;
    if cid in instances then
      instances[cid := instances[cid].(
        version := r.version, url := r.url, healthStatus := r.health,
        lastHeartbeat := r.timestamp, totalUsers := r.totalUsers, totalMessages := r.totalMessages)]
    else
      instances[cid := Instance(r.version, r.url, r.health, r.timestamp, now, r.totalUsers, r.totalMessages)]
  }

  /** The version history after a registration: append-only, at most one new entry. */
  function LoggedHistory(instances: map<CustomerId, Instance>, history: seq<VersionEntry>, r: Registration, now: int): (h: seq<VersionEntry>)
    ensures |history| <= |h| <= |history| + 1
    ensures h[..|history|] == history
    ensures |h| == |history| + 1 <==> r.customerId in instances && instances[r.customerId].version != r.version
    ensures |h| == |history| + 1 ==>
      h[|history|] == VersionEntry(r.customerId, instances[r.customerId].version, r.version, now)
  {
    if r.customerId in instances && instances[r.customerId].version != r.version then
      history + [VersionEntry(r.customerId, instances[r.customerId].version, r.version, now)]
    else history
  }

  /** No entry for the customer of h[i] lies strictly between positions i and j. */
  ghost predicate NoneBetween(h: seq<VersionEntry>, i: int, j: int)
    requires 0 <= i < |h| && j <= |h|
  {
    forall k :: i < k < j ==> h[k].customerId != h[i].customerId
  }

  /**
   * What a history written only by registrations looks like: every entry is a
   * real change by a registered customer, consecutive entries of one customer
   * link up (the next one starts from the version the previous one ended at),
   * and the latest entry of a customer ends at that customer's current version.
   */
  ghost predicate HistoryConsistent(instances: map<CustomerId, Instance>, h: seq<VersionEntry>) {
    && (forall i :: 0 <= i < |h| ==> h[i].customerId in instances && h[i].oldVersion != h[i].newVersion)
    && (forall i :: 0 <= i < |h| && NoneBetween(h, i, |h|) ==>
          h[i].customerId in instances && h[i].newVersion == instances[h[i].customerId].version)
    && (forall i, j :: 0 <= i < j < |h| && h[j].customerId == h[i].customerId && NoneBetween(h, i, j) ==>
          h[i].newVersion == h[j].oldVersion)
  }

  lemma EmptyHistoryConsistent(instances: map<CustomerId, Instance>)
    ensures HistoryConsistent(instances, [])
  {
  }

  /** Every registration keeps the history consistent with the instance table. */
  lemma RegisterKeepsHistoryConsistent(instances: map<CustomerId, Instance>, h: seq<VersionEntry>, r: Registration, now: int)
    requires HistoryConsistent(instances, h)
    ensures HistoryConsistent(Upserted(instances, r, now), LoggedHistory(instances, h, r, now))
  {
    var m', h' := Upserted(instances, r, now), LoggedHistory(instances, h, r, now);
    var c := r.customerId;
    if |h'| == |h| {
      assert h' == h;
      forall i | 0 <= i < |h| && NoneBetween(h, i, |h|)
        ensures h[i].newVersion == m'[h[i].customerId].version
      {
        if h[i].customerId == c {
          assert c in instances && instances[c].version == r.version;
        }
      }
    } else {
      var n := |h|;
      var e := VersionEntry(c, instances[c].version, r.version, now);
      assert h' == h + [e];
      forall i | 0 <= i < |h'| && NoneBetween(h', i, |h'|)
        ensures h'[i].customerId in m' && h'[i].newVersion == m'[h'[i].customerId].version
      {
        if i < n {
          assert h'[n].customerId != h'[i].customerId;
          assert NoneBetween(h, i, |h|) by {
            forall k | i < k < |h| ensures h[k].customerId != h[i].customerId {
              assert h'[k] == h[k];
            }
          }
        }
      }
      forall i, j | 0 <= i < j < |h'| && h'[j].customerId == h'[i].customerId && NoneBetween(h', i, j)
        ensures h'[i].newVersion == h'[j].oldVersion
      {
        assert NoneBetween(h, i, if j < n then j else n) by {
          forall k | i < k < (if j < n then j else n) ensures h[k].customerId != h[i].customerId {
            assert h'[k] == h[k];
          }
        }
      }
    }
  }

  /** Registering the same payload again changes neither table. */
  lemma RegisterAgainChangesNothing(instances: map<CustomerId, Instance>, h: seq<VersionEntry>, r: Registration, now: int, later: int)
    ensures Upserted(Upserted(instances, r, now), r, later) == Upserted(instances, r, now)
    ensures LoggedHistory(Upserted(instances, r, now), h, r, later) == h
  {
  }
}
