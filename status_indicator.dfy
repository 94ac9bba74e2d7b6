/** The two lookups of the connection-status badge: the icon and the label
    shown for a status string. The JSX around them is not modelled. */
module StatusIndicator {
  import WalletUtils

  const GreenCircle := "\U{1F7E2}"
  const YellowCircle := "\U{1F7E1}"
  const RedCircle := "\U{1F534}"
  const BlueCircle := "\U{1F535}"
  const WhiteCircle := "\U{26AA}"

  /** The statuses with a case of their own in both switches. */
  const KnownStatuses: set<string> := {"connected", "connecting", "error", "ready"}

  /** getStatusIcon: a switch with strict comparison and a default. */
  function GetStatusIcon(status: string): (icon: string)
    ensures icon in {GreenCircle, YellowCircle, RedCircle, BlueCircle, WhiteCircle}
  {
    match status
    case "connected" => GreenCircle
    case "connecting" => YellowCircle
    case "error" => RedCircle
    case "ready" => BlueCircle
    case _ => WhiteCircle
  }

  /** getStatusText: the same cases, giving the label. */
  function GetStatusText(status: string): (text: string)
    ensures text in {"Connected", "Connecting...", "Error", "Ready", "Disconnected"}
  {
    match status
    case "connected" => "Connected"
    case "connecting" => "Connecting..."
    case "error" => "Error"
    case "ready" => "Ready"
    case _ => "Disconnected"
  }

  /** The known statuses and their icon/label pairs. */
  lemma KnownStatusBadges()
    ensures GetStatusIcon("connected") == GreenCircle && GetStatusText("connected") == "Connected"
    ensures GetStatusIcon("connecting") == YellowCircle && GetStatusText("connecting") == "Connecting..."
    ensures GetStatusIcon("error") == RedCircle && GetStatusText("error") == "Error"
    ensures GetStatusIcon("ready") == BlueCircle && GetStatusText("ready") == "Ready"
  {
  }

  /** Every other string, "disconnected" included, gets the default badge,
      and only those do. */
  lemma DefaultBadge(status: string)
    ensures status !in KnownStatuses <==> GetStatusIcon(status) == WhiteCircle
    ensures status !in KnownStatuses <==> GetStatusText(status) == "Disconnected"
    ensures GetStatusIcon("disconnected") == WhiteCircle && GetStatusText("disconnected") == "Disconnected"
  {
  }

  /** Icon and label come from the same case: each icon appears exactly with
      its label. */
  lemma IconMatchesLabel(status: string)
    ensures GetStatusIcon(status) == GreenCircle <==> GetStatusText(status) == "Connected"
    ensures GetStatusIcon(status) == YellowCircle <==> GetStatusText(status) == "Connecting..."
    ensures GetStatusIcon(status) == RedCircle <==> GetStatusText(status) == "Error"
    ensures GetStatusIcon(status) == BlueCircle <==> GetStatusText(status) == "Ready"
    ensures GetStatusIcon(status) == WhiteCircle <==> GetStatusText(status) == "Disconnected"
  {
  }

  /** So two statuses share an icon exactly when they share a label. */
  lemma SameIconSameLabel(s: string, t: string)
    ensures GetStatusIcon(s) == GetStatusIcon(t) <==> GetStatusText(s) == GetStatusText(t)
  {
  }

  /** The statuses drawn with the default badge are exactly those painted
      grey, and the badge colour groups statuses the same way as the icon. */
  lemma DefaultBadgeIsGrey(s: string, t: string)
    ensures GetStatusText(s) == "Disconnected" <==> WalletUtils.GetStatusColor(s) == WalletUtils.Grey
    ensures WalletUtils.GetStatusColor(s) == WalletUtils.GetStatusColor(t)
        <==> GetStatusIcon(s) == GetStatusIcon(t)
  {
  }
}
