/** Alert rules, signals, events and the notifications they give rise to. */
module AlertTypes {
  import opened Wrappers

  type Time = nat

  /** Identifiers of rules; lease tokens and idempotency keys are drawn from the same kind of value. */
  type Id = nat

  datatype Metric =
    | ClientOffline
    | PolicyUnavailable
    | AuthenticationFailures
    | TrafficBytesPerSecond
    | ActiveConnections
    | CertificateDaysRemaining
    | SloFastBurnRate
    | SloSlowBurnRate

  datatype Comparator = GreaterOrEqual | LessOrEqual

  datatype Severity = Info | Warning | Critical

  datatype Rule = Rule(
    id: Id,
    name: string,
    metric: Metric,
    comparator: Comparator,
    threshold: real,
    target: Option<string>,
    windowSeconds: nat,
    cooldownSeconds: nat,
    severity: Severity,
    notifyWebhook: bool,
    notifyEmail: bool,
    enabled: bool)

  datatype Signal = Signal(metric: Metric, subject: string, value: real, message: string, windowSeconds: Option<nat>)

  datatype Event = Event(
    ruleId: Id,
    ruleName: string,
    severity: Severity,
    subject: string,
    active: bool,
    value: real,
    threshold: real,
    message: string,
    started: Time,
    updated: Time,
    resolvedAt: Option<Time>,
    lastNotified: Option<Time>)

  datatype Notification = Notification(eventId: nat, event: Event, resolved: bool, webhook: bool, email: bool)

  datatype Channel = Webhook | Email

  function Channels(n: Notification): seq<Channel>
  {
    (if n.webhook then [Webhook] else []) + (if n.email then [Email] else [])
  }

  datatype Error = QueueFull | PayloadTooLarge
}
