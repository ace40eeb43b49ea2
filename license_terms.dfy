/**
 * The pure rules of generate_license.py around a license row: when it expires
 * (generate_license.py:48-51), how the CLI's --months reaches create_license
 * (generate_license.py:162), the row create_license inserts
 * (generate_license.py:54-57), and how list_licenses orders and labels rows
 * (generate_license.py:104-132).
 */
module LicenseTerms {
  import opened Wrappers
  import opened Schema
  import opened Tables

  const SecondsPerDay: int := 86400
  const DaysPerMonth: int := 30

  /**
   * `expires_at`: perpetual (None) when months is falsy, that is None or 0;
   * otherwise months * 30 days after now. Negative months are truthy and give
   * a date in the past, as in the source.
   */
  function ExpiresAt(now: int, months: Option<int>): (e: Option<int>)
    ensures e.None? <==> months.None? || months.value == 0
    ensures e.Some? ==> e.value - now == months.value * DaysPerMonth * SecondsPerDay
    ensures e.Some? && months.value > 0 ==> e.value > now
  {
    if months.None? || months.value == 0 then None
    else Some(now + months.value * DaysPerMonth * SecondsPerDay)
  }

  /**
   * The range of Python's `datetime`: 0001-01-01 00:00:00 to 9999-12-31
   * 23:59:59, in whole seconds from 1970-01-01 00:00:00 on the same clock.
   */
  const MinDateTime: int := -62135596800
  const MaxDateTime: int := 253402300799

  predicate InDateRange(t: int) {
    MinDateTime <= t <= MaxDateTime
  }

  /**
   * Whether `datetime.now() + timedelta(days=months*30)` has a value: outside
   * datetime's range (or timedelta's, which is wider) it raises OverflowError.
   * A perpetual license does no date arithmetic.
   */
  predicate ExpiryFits(now: int, months: Option<int>) {
    ExpiresAt(now, months).None? || InDateRange(ExpiresAt(now, months).value)
  }

  /** Terms beyond the whole width of datetime's range can never be computed, whatever the clock says. */
  lemma HugeTermsOverflow(now: int, months: int)
    requires InDateRange(now)
    requires months >= 121736 || months <= -121736
    ensures !ExpiryFits(now, Some(months))
  {
  }

  /** Lifetime licenses, and terms that end by 9999-12-31, always fit. */
  lemma ExpiryFitsWhen(now: int, months: Option<int>)
    requires InDateRange(now)
    requires months.Some? ==> 0 <= months.value && now + months.value * DaysPerMonth * SecondsPerDay <= MaxDateTime
    ensures ExpiryFits(now, months)
  {
  }

  /** The CLI's `None if args.months == 0 else args.months`. */
  function CliMonths(months: int): (m: Option<int>)
    ensures m.None? <==> months == 0
    ensures m.Some? ==> m.value == months
  {
    if months == 0 then None else Some(months)
  }

  /** Mapping 0 to None in the CLI changes nothing: create_license already reads 0 as lifetime. */
  lemma CliMonthsAgrees(now: int, months: int)
    ensures ExpiresAt(now, CliMonths(months)) == ExpiresAt(now, Some(months))
  {
  }

  /** The row create_license inserts: status 'active', created now, never validated. */
  function NewLicense(cid: CustomerId, name: string, plan: string, months: Option<int>, now: int): (l: License)
    ensures l.customerId == cid && l.status == ActiveStatus && l.lastValidated.None?
    ensures l.expiresAt.None? <==> months.None? || months.value == 0
    ensures l.expiresAt.Some? ==> l.expiresAt.value - l.createdAt == months.value * DaysPerMonth * SecondsPerDay
  {
    License(cid, name, plan, ActiveStatus, now, ExpiresAt(now, months), None)
  }

  /** Inserting a license for a customer who holds none keeps the one-license-per-customer rule. */
  lemma InsertKeepsOnePerCustomer(licenses: map<LicenseKey, License>, key: LicenseKey, l: License)
    requires OnePerCustomer(licenses)
    requires !HasLicense(licenses, l.customerId)
    ensures OnePerCustomer(licenses[key := l])
  {
  }

  /** What the "Expires" column of list_licenses shows. */
  datatype ExpiryDisplay = Never | Expired(on: int) | DaysLeft(until: int, days: nat)

  /**
   * "Never" without an expiry; EXPIRED when the expiry is strictly before now;
   * otherwise the whole days left, `(exp - now).days`, which floors.
   */
  function Display(expiresAt: Option<int>, now: int): (d: ExpiryDisplay)
    ensures d.Never? <==> expiresAt.None?
    ensures d.Expired? <==> expiresAt.Some? && expiresAt.value < now
    ensures d.Expired? ==> d.on == expiresAt.value
    ensures d.DaysLeft? ==> d.until == expiresAt.value
    ensures d.DaysLeft? ==> d.days * SecondsPerDay <= expiresAt.value - now < (d.days + 1) * SecondsPerDay
  {
    if expiresAt.None? then Never
    else if expiresAt.value < now then Expired(expiresAt.value)
    else DaysLeft(expiresAt.value, (expiresAt.value - now) / SecondsPerDay)
  }

  /** A license expiring exactly now is shown with zero days left, not as expired. */
  lemma DisplayAtExpiry(exp: int)
    ensures Display(Some(exp), exp) == DaysLeft(exp, 0)
  {
  }

  /** Until it expires, the days a license shows as left never grow as time passes. */
  lemma DaysLeftShrink(exp: int, now: int, later: int)
    requires now <= later <= exp
    ensures Display(Some(exp), later).days <= Display(Some(exp), now).days
  {
    var a, b := exp - later, exp - now;
    assert a <= b;
    var qa, qb := a / SecondsPerDay, b / SecondsPerDay;
    assert qa * SecondsPerDay <= a;
    assert b < (qb + 1) * SecondsPerDay;
  }

  type Row = (LicenseKey, License)

  /** One printed line of list_licenses. */
  datatype ListedLicense = ListedLicense(key: LicenseKey, license: License, expires: ExpiryDisplay)

  function CreatedAt(r: Row): int {
    r.1.createdAt
  }

  function Rows(out: seq<ListedLicense>): (rows: seq<Row>)
    ensures |rows| == |out|
  {
    seq(|out|, i requires 0 <= i < |out| => (out[i].key, out[i].license))
  }

  /**
   * The listing of list_licenses: the rows of a table scan ordered by
   * created_at, newest first, each with its expiry display for now.
   */
  function Listing(rows: seq<Row>, now: int): (out: seq<ListedLicense>)
    ensures multiset(Rows(out)) == multiset(rows)
    ensures forall i, j :: 0 <= i < j < |out| ==> out[i].license.createdAt >= out[j].license.createdAt
    ensures forall i :: 0 <= i < |out| ==> out[i].expires == Display(out[i].license.expiresAt, now)
  {
    var sorted := SortDesc(rows, CreatedAt);
    SortDescSorted(rows, CreatedAt);
    var out := seq(|sorted|, i requires 0 <= i < |sorted| =>
      ListedLicense(sorted[i].0, sorted[i].1, Display(sorted[i].1.expiresAt, now)));
    assert forall i :: 0 <= i < |out| ==> out[i].license == sorted[i].1;
    assert Rows(out) == sorted;
    out
  }
}
