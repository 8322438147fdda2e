/** The service configuration that restart decisions read, and those decisions. */
module Policies {
  import opened Basics

  datatype PolicyName = Unset | Always | OnFailure | Never | Other

  /** `enabled` is optional in the configuration: absent differs from false. */
  datatype Service = Service(
    policy: PolicyName,
    enabled: Option<bool>,
    maxRetries: int,
    backoffSeconds: real,
    unhealthyThreshold: int,
    healthyResetThreshold: int,
    hasHealthCheck: bool,
    waitForHealthy: bool)

  const DEFAULT_MAX_RETRIES := 3
  const DEFAULT_BACKOFF_SECONDS := 2.0
  const HEALTH_RESTART_STREAK := 3
  const HEALTH_RESET_STREAK := 10

  function MaxRetries(svc: Service): nat {
    if svc.maxRetries > 0 then svc.maxRetries else DEFAULT_MAX_RETRIES
  }

  function Backoff(svc: Service): real {
    if svc.backoffSeconds > 0.0 then svc.backoffSeconds else DEFAULT_BACKOFF_SECONDS
  }

  function UnhealthyThreshold(svc: Service): nat {
    if svc.unhealthyThreshold > 0 then svc.unhealthyThreshold else HEALTH_RESTART_STREAK
  }

  function ResetThreshold(svc: Service): nat {
    if svc.healthyResetThreshold > 0 then svc.healthyResetThreshold else HEALTH_RESET_STREAK
  }

  function EffectivePolicy(svc: Service): PolicyName {
    if svc.policy != Unset then svc.policy
    else if svc.enabled == Some(true) then OnFailure
    else Never
  }

  /** The crash rule: whether exit `code` after `n` restarts is followed by another start. */
  predicate ShouldRestart(svc: Service, n: nat, code: int) {
    var policy := EffectivePolicy(svc);
    && svc.enabled != Some(false)
    && policy != Never
    && n < MaxRetries(svc)
    && (policy == Always || (policy == OnFailure && code != 0))
  }

  /** The policy test of the unhealthy path. Unlike the crash rule it reads `enabled` only when no policy is set. */
  predicate RestartsWhenUnhealthy(svc: Service) {
    EffectivePolicy(svc) == OnFailure || EffectivePolicy(svc) == Always
  }

  function Pow2(n: nat): nat {
    if n == 0 then 1 else 2 * Pow2(n - 1)
  }

  /** Wait before restart attempt `n` (counted from 0), in milliseconds. */
  function DelayMs(svc: Service, n: nat): real {
    Backoff(svc) * (Pow2(n) as real) * 1000.0
  }
}
