/**
 * The verdict of `validate_license` (main.py:238-314): a fail-fast chain of
 * lookup, status, expiry and customer checks, each failure with its own error
 * code, and the success payload.
 */
module Validation {
  import opened Wrappers
  import opened Schema
  import opened LicenseTerms

  datatype Verdict =
    | InvalidLicense
    | LicenseInactive(status: string)
    | LicenseExpired(expiredOn: int)
    | CustomerMismatch
    | Valid(customerName: string, plan: string, expiresAt: Option<int>)
  {
    /** The machine-readable `error` field of a 401 response. */
    function ErrorCode(): string
      requires !Valid?
    {
      match this
      case InvalidLicense => "INVALID_LICENSE"
      case LicenseInactive(_) => "LICENSE_INACTIVE"
      case LicenseExpired(_) => "LICENSE_EXPIRED"
      case CustomerMismatch => "CUSTOMER_MISMATCH"
    }
  }

  /** The expiry check of main.py:276-278: a set expiry strictly before now. */
  predicate IsExpired(l: License, now: int) {
    l.expiresAt.Some? && now > l.expiresAt.value
  }

  /** The decision of validate_license for one request against the license table. */
  function ValidateLicense(licenses: map<LicenseKey, License>, key: LicenseKey, cid: CustomerId, now: int): (v: Verdict)
    ensures v == InvalidLicense <==> key !in licenses
    ensures v.LicenseInactive? <==> key in licenses && licenses[key].status != ActiveStatus
    ensures v.LicenseInactive? ==> v.status == licenses[key].status
    ensures v.LicenseExpired? <==>
      key in licenses && licenses[key].status == ActiveStatus && IsExpired(licenses[key], now)
    ensures v.LicenseExpired? ==> licenses[key].expiresAt == Some(v.expiredOn)
    ensures v == CustomerMismatch <==>
      key in licenses && licenses[key].status == ActiveStatus && !IsExpired(licenses[key], now)
      && licenses[key].customerId != cid
    ensures v.Valid? <==>
      key in licenses && licenses[key].status == ActiveStatus && !IsExpired(licenses[key], now)
      && licenses[key].customerId == cid
    ensures v.Valid? ==>
      v == Valid(licenses[key].customerName, licenses[key].plan, licenses[key].expiresAt)
  {
    if key !in licenses then InvalidLicense
    else
      var l := licenses[key];
      if l.status != ActiveStatus then LicenseInactive(l.status)
      else if IsExpired(l, now) then LicenseExpired(l.expiresAt.value)
      else if l.customerId != cid then CustomerMismatch
      else Valid(l.customerName, l.plan, l.expiresAt)
  }

  /** The table after a validation: only success stamps last_validated on that one license. */
  function Touched(licenses: map<LicenseKey, License>, key: LicenseKey, v: Verdict, now: int): (m: map<LicenseKey, License>)
    requires v.Valid? ==> key in licenses
    ensures !v.Valid? ==> m == licenses
    ensures m.Keys == licenses.Keys
    ensures forall k :: k in licenses && (k != key || !v.Valid?) ==> m[k] == licenses[k]
    ensures v.Valid? ==> m[key] == licenses[key].(lastValidated := Some(now))
  {
    if v.Valid? then licenses[key := licenses[key].(lastValidated := Some(now))] else licenses
  }

  /** Stamping last_validated keeps at most one license per customer. */
  lemma TouchKeepsOnePerCustomer(licenses: map<LicenseKey, License>, key: LicenseKey, cid: CustomerId, now: int)
    requires OnePerCustomer(licenses)
    ensures OnePerCustomer(Touched(licenses, key, ValidateLicense(licenses, key, cid, now), now))
  {
  }

  /** A license that is not active is reported inactive whatever its expiry, the customer and the time. */
  lemma InactiveWins(licenses: map<LicenseKey, License>, key: LicenseKey, cid: CustomerId, now: int)
    requires key in licenses && licenses[key].status != ActiveStatus
    ensures ValidateLicense(licenses, key, cid, now) == LicenseInactive(licenses[key].status)
  {
  }

  /** An active license past its expiry is reported expired whatever customer asks. */
  lemma ExpiredBeforeMismatch(licenses: map<LicenseKey, License>, key: LicenseKey, cid: CustomerId, now: int)
    requires key in licenses && licenses[key].status == ActiveStatus
    requires licenses[key].expiresAt.Some? && now > licenses[key].expiresAt.value
    ensures ValidateLicense(licenses, key, cid, now) == LicenseExpired(licenses[key].expiresAt.value)
  {
  }

  /** A perpetual license never fails the expiry check, and neither does one at its exact expiry instant. */
  lemma NotExpiredWhen(l: License, now: int)
    requires l.expiresAt.None? || l.expiresAt.value == now
    ensures !IsExpired(l, now)
  {
  }

  /** Once a license has expired it stays expired. */
  lemma ExpiryIsPermanent(licenses: map<LicenseKey, License>, key: LicenseKey, cid: CustomerId, now: int, later: int)
    requires now <= later
    requires ValidateLicense(licenses, key, cid, now).LicenseExpired?
    ensures ValidateLicense(licenses, key, cid, later).LicenseExpired?
  {
  }

  /** A verdict that is valid now was valid at every earlier time. */
  lemma ValidEarlier(licenses: map<LicenseKey, License>, key: LicenseKey, cid: CustomerId, earlier: int, now: int)
    requires earlier <= now
    requires ValidateLicense(licenses, key, cid, now).Valid?
    ensures ValidateLicense(licenses, key, cid, earlier) == ValidateLicense(licenses, key, cid, now)
  {
  }

  /**
   * list_licenses and validate_license agree on expiry: an active license is
   * shown as EXPIRED exactly when validating it fails with LICENSE_EXPIRED.
   */
  lemma DisplayAgreesWithValidator(licenses: map<LicenseKey, License>, key: LicenseKey, cid: CustomerId, now: int)
    requires key in licenses && licenses[key].status == ActiveStatus
    ensures Display(licenses[key].expiresAt, now).Expired? <==> ValidateLicense(licenses, key, cid, now).LicenseExpired?
  {
  }

  /** The four failure stages report four different error codes. */
  lemma ErrorCodesDistinct(a: Verdict, b: Verdict)
    requires !a.Valid? && !b.Valid?
    requires a.ErrorCode() == b.ErrorCode()
    ensures a.InvalidLicense? == b.InvalidLicense? && a.LicenseInactive? == b.LicenseInactive?
    ensures a.LicenseExpired? == b.LicenseExpired? && a.CustomerMismatch? == b.CustomerMismatch?
  {
  }

  /**
   * A license create_license just inserted validates for its customer, with
   * its name, plan and expiry, at every time from its creation up to its
   * expiry instant.
   */
  lemma NewLicenseValidates(licenses: map<LicenseKey, License>, key: LicenseKey, cid: CustomerId,
                            name: string, plan: string, months: Option<int>, now: int, later: int)
    requires ExpiresAt(now, months).Some? ==> later <= ExpiresAt(now, months).value
    ensures ValidateLicense(licenses[key := NewLicense(cid, name, plan, months, now)], key, cid, later)
      == Valid(name, plan, ExpiresAt(now, months))
  {
  }
}
