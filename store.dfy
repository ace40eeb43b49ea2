/**
 * The central store as the endpoints and the key generator change it: the
 * three tables of main.py:44-83, held as fields and updated in place by
 * `register_instance` (main.py:119-171), `validate_license`
 * (main.py:238-314) and `create_license` (generate_license.py:19-85), and
 * read by the dashboard (main.py:205-225) and `list_licenses`
 * (generate_license.py:95-132).
 */
module Store {
  import opened Wrappers
  import opened Schema
  import opened Tables
  import opened KeyFormat
  import opened LicenseTerms
  import opened Validation
  import opened Registry
  import opened Dashboard

  class CentralStore {
    var instances: map<CustomerId, Instance>
    var history: seq<VersionEntry>
    var licenses: map<LicenseKey, License>

    /** The UNIQUE customer_id of licenses, and a history only registrations wrote. */
    ghost predicate Valid()
      reads this
    {
      OnePerCustomer(licenses) && HistoryConsistent(instances, history)
    }

    /** A freshly initialised database: three empty tables. */
    constructor ()
      ensures Valid()
      ensures instances == map[] && history == [] && licenses == map[]
    {
      instances := map[];
      history := [];
      licenses := map[];
      new;
      EmptyHistoryConsistent(instances);
    }

    /**
     * `register_instance`: read the stored version, then update the row and log
     * a version change, or insert a new row. first_seen takes the database's
     * clock, `now`; the heartbeat is the timestamp the instance reported.
     */
    method Register(r: Registration, now: int)
      requires Valid()
      modifies this
      ensures Valid()
      ensures instances == Upserted(old(instances), r, now)
      ensures history == LoggedHistory(old(instances), old(history), r, now)
      ensures licenses == old(licenses)
    {
      RegisterKeepsHistoryConsistent(instances, history, r, now);
      var cid := r.customerId;
      if cid in instances {
        var oldVersion := instances[cid].version;
        instances := instances[cid := instances[cid].(
          version := r.version, url := r.url, healthStatus := r.health,
          lastHeartbeat := r.timestamp, totalUsers := r.totalUsers, totalMessages := r.totalMessages)];
        if oldVersion != r.version {
          history := history + [VersionEntry(cid, oldVersion, r.version, now)];
        }
      } else {
        instances := instances[cid := Instance(r.version, r.url, r.health, r.timestamp, now, r.totalUsers, r.totalMessages)];
      }
    }

    /**
     * `validate_license`: the verdict of the fail-fast chain, and on success
     * last_validated of that license set to now. The request's app_version and
     * timestamp are not read by the source and are not parameters here.
     */
    method Validate(key: LicenseKey, cid: CustomerId, now: int) returns (v: Verdict)
      requires Valid()
      modifies this
      ensures Valid()
      ensures v == ValidateLicense(old(licenses), key, cid, now)
      ensures licenses == Touched(old(licenses), key, v, now)
      ensures instances == old(instances) && history == old(history)
    {
      TouchKeepsOnePerCustomer(licenses, key, cid, now);
      v := ValidateLicense(licenses, key, cid, now);
      if v.Valid? {
        licenses := licenses[key := licenses[key].(lastValidated := Some(now))];
      }
    }

    /**
     * `create_license` with its random bytes and clock made explicit. It returns
     * None for a customer who already holds a license, and None for the errors it
     * catches: an expiry outside datetime's range raises OverflowError, and an
     * insert whose key is already in the table fails on the primary key. None of
     * these inserts a row.
     */
    method CreateLicense(cid: CustomerId, name: string, plan: string, months: Option<int>, random: seq<byte>, now: int)
      returns (key: Option<LicenseKey>)
      requires Valid()
      requires |random| == KeyBytes
      modifies this
      ensures Valid()
      ensures key.Some? <==>
        !HasLicense(old(licenses), cid) && ExpiryFits(now, months) && GenerateLicenseKey(random) !in old(licenses)
      ensures key.Some? ==> key.value == GenerateLicenseKey(random) && WellFormedKey(key.value)
      ensures key.Some? ==> licenses == old(licenses)[key.value := NewLicense(cid, name, plan, months, now)]
      ensures key.None? ==> licenses == old(licenses)
      ensures instances == old(instances) && history == old(history)
    {
      if HasLicense(licenses, cid) {
        return None;
      }
      var k := GenerateLicenseKey(random);
      GeneratedKeyWellFormed(random);
      if !ExpiryFits(now, months) {
        return None;
      }
      var expires := ExpiresAt(now, months);
      if k in licenses {
        return None;
      }
      InsertKeepsOnePerCustomer(licenses, k, NewLicense(cid, name, plan, months, now));
      licenses := licenses[k := License(cid, name, plan, ActiveStatus, now, expires, None)];
      key := Some(k);
    }

    /** `list_licenses`: every license once, newest first, each with its expiry display. */
    method ListLicenses(now: int) returns (out: seq<ListedLicense>)
      ensures multiset(Rows(out)) == multiset(licenses.Items)
      ensures |out| == |licenses|
      ensures forall i, j :: 0 <= i < j < |out| ==> out[i].license.createdAt >= out[j].license.createdAt
      ensures forall i :: 0 <= i < |out| ==> out[i].key in licenses && out[i].license == licenses[out[i].key]
      ensures forall i :: 0 <= i < |out| ==> out[i].expires == Display(out[i].license.expiresAt, now)
    {
      var rows := Scan(licenses);
      out := Listing(rows, now);
      forall i | 0 <= i < |out| ensures out[i].key in licenses && out[i].license == licenses[out[i].key] {
        assert Rows(out)[i] in multiset(licenses.Items);
      }
    }

    /** The figures `master_admin_dashboard` renders, instances newest heartbeat first. */
    method Figures(cfg: Config) returns (d: DashboardData)
      ensures multiset(d.instances) == multiset(instances.Items)
      ensures forall i, j :: 0 <= i < j < |d.instances| ==> d.instances[i].1.lastHeartbeat >= d.instances[j].1.lastHeartbeat
      ensures d == DashboardOf(d.instances, history, cfg)
      ensures d.totalCustomers == |instances|
      ensures |d.recentUpdates| <= RecentLimit
    {
      var rows := Scan(instances);
      var sorted := SortDesc(rows, LastHeartbeat);
      SortDescSorted(rows, LastHeartbeat);
      assert forall i, j :: 0 <= i < j < |sorted| ==> LastHeartbeat(sorted[i]) >= LastHeartbeat(sorted[j]);
      d := DashboardOf(sorted, history, cfg);
    }

    /**
     * `master_admin_dashboard` behind `verify_master_admin`: None (the 401) unless
     * both credentials match, otherwise the figures.
     */
    method AdminDashboard(cfg: Config, username: string, password: string) returns (d: Option<DashboardData>)
      ensures d.Some? <==> VerifyMasterAdmin(cfg, username, password).Some?
      ensures d.Some? ==> multiset(d.value.instances) == multiset(instances.Items)
      ensures d.Some? ==> forall i, j :: 0 <= i < j < |d.value.instances| ==>
        d.value.instances[i].1.lastHeartbeat >= d.value.instances[j].1.lastHeartbeat
      ensures d.Some? ==> d.value == DashboardOf(d.value.instances, history, cfg)
      ensures d.Some? ==> d.value.totalCustomers == |instances|
    {
      if VerifyMasterAdmin(cfg, username, password).None? {
        return None;
      }
      var figures := Figures(cfg);
      d := Some(figures);
    }
  }

  /**
   * A twelve-month license for "acme", created at t, validates for acme at t
   * with its expiry twelve 30-day months ahead, and records t as its last
   * validation.
   */
  method LicenseScenario(random: seq<byte>, t: int)
    requires |random| == KeyBytes
    requires MinDateTime <= t <= MaxDateTime - 12 * 30 * 86400
  {
    var store := new CentralStore();
    var key := store.CreateLicense("acme", "Acme Corp", "standard", CliMonths(12), random, t);
    assert key.Some?;
    var expiry := t + 12 * 30 * 86400;
    assert store.licenses[key.value] == License("acme", "Acme Corp", "standard", ActiveStatus, t, Some(expiry), None);
    var ok := store.Validate(key.value, "acme", t);
    assert ok == Valid("Acme Corp", "standard", Some(expiry));
    assert store.licenses[key.value].lastValidated == Some(t);
  }

  /** The same license presented by another customer is refused, and nothing is recorded. */
  method MismatchScenario(random: seq<byte>, t: int)
    requires |random| == KeyBytes
    requires MinDateTime <= t <= MaxDateTime - 12 * 30 * 86400
  {
    var store := new CentralStore();
    var key := store.CreateLicense("acme", "Acme Corp", "standard", CliMonths(12), random, t);
    assert key.Some?;
    var other := store.Validate(key.value, "other", t);
    assert other == CustomerMismatch;
    assert store.licenses[key.value].lastValidated == None;
  }

  /** A second license for the same customer is refused and the table is left as it was. */
  method DuplicateScenario(random: seq<byte>, again: seq<byte>, t: int)
    requires |random| == KeyBytes && |again| == KeyBytes
    requires MinDateTime <= t <= MaxDateTime - 12 * 30 * 86400
  {
    var store := new CentralStore();
    var key := store.CreateLicense("acme", "Acme Corp", "standard", CliMonths(12), random, t);
    assert key.Some?;
    var before := store.licenses;
    var second := store.CreateLicense("acme", "Acme Corp", "pro", None, again, t);
    assert second.None?;
    assert store.licenses == before;
  }

  /** A term of 200000 months overflows datetime at any clock reading, so no license is created. */
  method OverflowScenario(random: seq<byte>, t: int)
    requires |random| == KeyBytes
    requires InDateRange(t)
  {
    var store := new CentralStore();
    HugeTermsOverflow(t, 200000);
    var key := store.CreateLicense("acme", "Acme Corp", "standard", Some(200000), random, t);
    assert key.None?;
    assert store.licenses == map[];
  }

  /**
   * Registering "acme" at 1.0.0 and then at 1.1.0 logs exactly one change; the
   * dashboard is refused with wrong credentials, and with the default ones it
   * counts acme as outdated against the latest version 1.0.0.
   */
  method RegistryScenario(t: int)
  {
    var store := new CentralStore();
    store.Register(Registration("acme", "1.0.0", "https://acme.example", "healthy", t, 3, 10), t);
    store.Register(Registration("acme", "1.1.0", "https://acme.example", "healthy", t + 60, 3, 12), t + 60);
    assert store.history == [VersionEntry("acme", "1.0.0", "1.1.0", t + 60)];
    assert store.instances.Keys == {"acme"};
    var denied := store.AdminDashboard(DefaultConfig, "admin", "wrong");
    assert denied.None?;
    var d := store.AdminDashboard(DefaultConfig, "admin", "changeme123");
    assert d.Some?;
    assert |d.value.instances| == 1 by {
      assert |store.instances.Items| == 1;
      assert |d.value.instances| == |multiset(d.value.instances)|;
    }
    assert d.value.instances[0] in multiset(store.instances.Items);
    assert d.value.outdatedCount == 1;
  }
}
