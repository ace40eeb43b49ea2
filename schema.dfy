/**
 * The three tables of the central store, one typed record per row
 * (main.py:44-83), and the configuration that main.py keeps in globals.
 * Timestamps are integer seconds; nullable columns are Options.
 */
module Schema {
  import opened Wrappers

  type CustomerId = string
  type LicenseKey = string

  /** A row of customer_instances; its customer_id is the key of the map holding it. */
  datatype Instance = Instance(
    version: string,
    url: string,
    healthStatus: string,
    lastHeartbeat: int,
    firstSeen: int,
    totalUsers: int,
    totalMessages: int)

  /** A row of version_history; its AUTOINCREMENT id is its position in the history. */
  datatype VersionEntry = VersionEntry(
    customerId: CustomerId,
    oldVersion: string,
    newVersion: string,
    updatedAt: int)

  /** A row of licenses; its license_key is the key of the map holding it. */
  datatype License = License(
    customerId: CustomerId,
    customerName: string,
    plan: string,
    status: string,
    createdAt: int,
    expiresAt: Option<int>,
    lastValidated: Option<int>)

  /** The body of a registration request (main.py:27-34). */
  datatype Registration = Registration(
    customerId: CustomerId,
    version: string,
    url: string,
    health: string,
    timestamp: int,
    totalUsers: int,
    totalMessages: int)

  /** The settings main.py reads from constants and the environment (main.py:19-23). */
  datatype Config = Config(latestVersion: string, adminUsername: string, adminPassword: string)

  const LatestVersion: string := "1.0.0"
  const DefaultConfig: Config := Config(LatestVersion, "admin", "changeme123")

  const ActiveStatus: string := "active"
  const HealthyStatus: string := "healthy"

  /** The UNIQUE constraint on licenses.customer_id (main.py:74). */
  ghost predicate OnePerCustomer(licenses: map<LicenseKey, License>) {
    forall k1, k2 :: k1 in licenses && k2 in licenses && licenses[k1].customerId == licenses[k2].customerId ==> k1 == k2
  }

  predicate HasLicense(licenses: map<LicenseKey, License>, cid: CustomerId) {
    exists k :: k in licenses && licenses[k].customerId == cid
  }
}
