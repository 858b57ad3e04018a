/** The status values of pkg/commons/constants.go. */
module Statuses {
  datatype Status = Inactive | Active | Pending | Deleted | Initializing
}
