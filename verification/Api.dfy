/** The parts of the DeployPolicy type (api/v1alpha1/deploypolicy_types.go) that several modules use. */
module Api {
  /** A metav1.Condition; since is lastTransitionTime. */
  datatype Condition = Condition(kind: string, status: string, reason: string, message: string, since: int)

  datatype PolicySpec = PolicySpec(requireResources: bool, requireReadinessProbe: bool, blockLatestTag: bool)
}
