/** The notification switches of the frontend's profile page. */
module ProfilePage {

  /** The three notification settings the page's switches toggle. */
  datatype Setting = EmailAlerts | ThreatAlerts | WeeklyReports

  datatype Notifications = Notifications(emailAlerts: bool, threatAlerts: bool, weeklyReports: bool)

  /** Email and threat alerts start on, weekly reports off. */
  const InitialNotifications: Notifications := Notifications(true, true, false)

  /** `prev[setting]`. */
  function Get(n: Notifications, s: Setting): bool {
    match s
    case EmailAlerts => n.emailAlerts
    case ThreatAlerts => n.threatAlerts
    case WeeklyReports => n.weeklyReports
  }

  /** `handleNotificationChange(setting)`: `{ ...prev, [setting]: !prev[setting] }`. */
  function Toggle(n: Notifications, s: Setting): (n': Notifications)
    ensures Get(n', s) == !Get(n, s)
    ensures forall t :: t != s ==> Get(n', t) == Get(n, t)
  {
    match s
    case EmailAlerts => n.(emailAlerts := !n.emailAlerts)
    case ThreatAlerts => n.(threatAlerts := !n.threatAlerts)
    case WeeklyReports => n.(weeklyReports := !n.weeklyReports)
  }

  lemma InitialSettings()
    ensures Get(InitialNotifications, EmailAlerts)
    ensures Get(InitialNotifications, ThreatAlerts)
    ensures !Get(InitialNotifications, WeeklyReports)
  {
  }

  /** A notification state is determined by the value of its three settings. */
  lemma SettingsDetermineState(a: Notifications, b: Notifications)
    requires forall s :: Get(a, s) == Get(b, s)
    ensures a == b
  {
    assert Get(a, EmailAlerts) == Get(b, EmailAlerts);
    assert Get(a, ThreatAlerts) == Get(b, ThreatAlerts);
    assert Get(a, WeeklyReports) == Get(b, WeeklyReports);
  }

  /** Toggling the same setting twice restores the state. */
  lemma ToggleTwice(n: Notifications, s: Setting)
    ensures Toggle(Toggle(n, s), s) == n
  {
    SettingsDetermineState(Toggle(Toggle(n, s), s), n);
  }

  /** Toggles of different settings commute. */
  lemma TogglesCommute(n: Notifications, s: Setting, t: Setting)
    ensures Toggle(Toggle(n, s), t) == Toggle(Toggle(n, t), s)
  {
    SettingsDetermineState(Toggle(Toggle(n, s), t), Toggle(Toggle(n, t), s));
  }
}
