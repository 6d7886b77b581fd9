/** How every module names a cohort. */
module Cohorts {
  type CohortId = string
}
