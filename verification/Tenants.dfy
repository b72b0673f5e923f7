/** The names texts are stored under. */
module Tenants {

  type Tenant = string

  /** The tenant name that matching makes up when the tree has no owner to offer. */
  const SENTINEL: Tenant := "empty"
}
