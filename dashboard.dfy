/**
 * The admin side of main.py: the credential rule of `verify_master_admin`
 * (main.py:182-193) and the figures `master_admin_dashboard` computes
 * (main.py:205-225).
 */
module Dashboard {
  import opened Wrappers
  import opened Schema
  import opened Tables

  /** Both the username and the password must match; the accepted username is returned. */
  function VerifyMasterAdmin(cfg: Config, username: string, password: string): (r: Option<string>)
    ensures r.Some? <==> username == cfg.adminUsername && password == cfg.adminPassword
    ensures r.Some? ==> r.value == cfg.adminUsername
  {
    if username == cfg.adminUsername && password == cfg.adminPassword then Some(username) else None
  }

  const RecentLimit: nat := 10

  type InstanceRow = (CustomerId, Instance)

  function LastHeartbeat(row: InstanceRow): int {
    row.1.lastHeartbeat
  }

  function UpdatedAt(e: VersionEntry): int {
    e.updatedAt
  }

  predicate IsHealthy(row: InstanceRow) {
    row.1.healthStatus == HealthyStatus
  }

  datatype DashboardData = DashboardData(
    instances: seq<InstanceRow>,
    totalCustomers: nat,
    healthyCount: nat,
    outdatedCount: nat,
    recentUpdates: seq<VersionEntry>,
    latestVersion: string)

  /** `SELECT * FROM version_history ORDER BY updated_at DESC LIMIT 10`. */
  function RecentUpdates(history: seq<VersionEntry>): (r: seq<VersionEntry>)
    ensures |r| == if |history| < RecentLimit then |history| else RecentLimit
    ensures multiset(r) <= multiset(history)
    ensures forall i, j :: 0 <= i < j < |r| ==> r[i].updatedAt >= r[j].updatedAt
  {
    var r := TopN(history, UpdatedAt, RecentLimit);
    assert forall i, j :: 0 <= i < j < |r| ==> UpdatedAt(r[i]) >= UpdatedAt(r[j]);
    r
  }

  /** No history entry left off the recent list is newer than any entry on it. */
  lemma RecentUpdatesAreNewest(history: seq<VersionEntry>, e: VersionEntry, i: nat)
    requires e in multiset(history) - multiset(RecentUpdates(history))
    requires i < |RecentUpdates(history)|
    ensures e.updatedAt <= RecentUpdates(history)[i].updatedAt
  {
    TopNIsTop(history, UpdatedAt, RecentLimit, e, i);
    assert UpdatedAt(e) <= UpdatedAt(RecentUpdates(history)[i]);
  }

  /**
   * The dashboard over the instance rows as the query returns them and the
   * version history; the counts are those of main.py:214-216.
   */
  function DashboardOf(rows: seq<InstanceRow>, history: seq<VersionEntry>, cfg: Config): (d: DashboardData)
    ensures d.instances == rows && d.latestVersion == cfg.latestVersion
    ensures d.totalCustomers == |rows|
    ensures d.healthyCount <= d.totalCustomers && d.outdatedCount <= d.totalCustomers
    ensures d.healthyCount == d.totalCustomers <==> forall i :: 0 <= i < |rows| ==> rows[i].1.healthStatus == HealthyStatus
    ensures d.healthyCount == 0 <==> forall i :: 0 <= i < |rows| ==> rows[i].1.healthStatus != HealthyStatus
    ensures d.outdatedCount == 0 <==> forall i :: 0 <= i < |rows| ==> rows[i].1.version == cfg.latestVersion
    ensures d.outdatedCount == d.totalCustomers <==> forall i :: 0 <= i < |rows| ==> rows[i].1.version != cfg.latestVersion
    ensures d.recentUpdates == RecentUpdates(history)
    ensures |d.recentUpdates| <= RecentLimit
  {
    DashboardData(
      rows,
      |rows|,
      Count(rows, IsHealthy),
      Count(rows, (row: InstanceRow) => row.1.version != cfg.latestVersion),
      RecentUpdates(history),
      cfg.latestVersion)
  }

  /** The counts do not depend on the order the query returns the rows in. */
  lemma DashboardOrderIndependent(a: seq<InstanceRow>, b: seq<InstanceRow>, history: seq<VersionEntry>, cfg: Config)
    requires multiset(a) == multiset(b)
    ensures DashboardOf(a, history, cfg).totalCustomers == DashboardOf(b, history, cfg).totalCustomers
    ensures DashboardOf(a, history, cfg).healthyCount == DashboardOf(b, history, cfg).healthyCount
    ensures DashboardOf(a, history, cfg).outdatedCount == DashboardOf(b, history, cfg).outdatedCount
  {
    assert |a| == |multiset(a)| == |multiset(b)| == |b|;
    CountPermutation(a, b, IsHealthy);
    CountPermutation(a, b, (row: InstanceRow) => row.1.version != cfg.latestVersion);
  }

  /** Adding a row raises healthy_count by one exactly when that row reports "healthy". */
  lemma HealthyCountsEachRow(rows: seq<InstanceRow>, row: InstanceRow, history: seq<VersionEntry>, cfg: Config)
    ensures DashboardOf(rows + [row], history, cfg).healthyCount
      == DashboardOf(rows, history, cfg).healthyCount + (if row.1.healthStatus == HealthyStatus then 1 else 0)
  {
    CountAppend(rows, [row], IsHealthy);
    assert Count([row], IsHealthy) == (if IsHealthy(row) then 1 else 0) by {
      assert [row][1..] == [];
    }
  }

  /** A customer on another version than the latest is counted as outdated, and no more rows than there are. */
  lemma OutdatedCountsEachRow(rows: seq<InstanceRow>, row: InstanceRow, history: seq<VersionEntry>, cfg: Config)
    ensures DashboardOf(rows + [row], history, cfg).outdatedCount
      == DashboardOf(rows, history, cfg).outdatedCount + (if row.1.version != cfg.latestVersion then 1 else 0)
  {
    var p := (r: InstanceRow) => r.1.version != cfg.latestVersion;
    CountAppend(rows, [row], p);
    assert Count([row], p) == (if p(row) then 1 else 0) by {
      assert [row][1..] == [];
    }
  }
}
