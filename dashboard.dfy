/** The display rules of the admin dashboard (src/pages/Dashboard.tsx): the
    shipment-status badge and colour, the shortened addresses of the recent
    shipments, the five-shipment cap, the metric card values and the error
    shown when loading failed. */
module Dashboard {
  import opened Wrappers
  import opened Text
  import opened Badges

  // ---------------------------------------------------------------------------
  // Shipment status badge and colour

  const FinishedStatuses: set<string> := {"ended", "completed"}
  const MatchedStatuses: set<string> := {"assigned", "accepted"}
  const MovingStatuses: set<string> := {"in_transit", "in_progress"}
  const OpenStatuses: set<string> := {"pending", "created"}

  const RedClasses: string := "bg-red-100 text-red-800 border-red-200"
  const GreenClasses: string := "bg-green-100 text-green-800 border-green-200"
  const IndigoClasses: string := "bg-indigo-100 text-indigo-800 border-indigo-200"
  const AmberClasses: string := "bg-amber-100 text-amber-800 border-amber-200"
  const GrayClasses: string := "bg-gray-100 text-gray-800 border-gray-200"

  /** `(status || "").toLowerCase()`. */
  function LoweredStatus(status: Option<string>): string {
    ToLower(status.GetOr(""))
  }

  /** `getStatusVariant`: the badge variant of a shipment status, compared
      case-insensitively; every unknown status gets `outline`. */
  function StatusVariant(status: Option<string>): (v: Variant)
    ensures v == Default <==> LoweredStatus(status) in FinishedStatuses
    ensures v == Secondary <==> LoweredStatus(status) in MatchedStatuses
    ensures v == Destructive <==> LoweredStatus(status) in OpenStatuses
    ensures v == Outline <==> LoweredStatus(status) !in FinishedStatuses + MatchedStatuses + OpenStatuses
  {
    var s := LoweredStatus(status);
    if s == "ended" || s == "completed" then Default
    else if s == "assigned" || s == "accepted" then Secondary
    else if s == "in_transit" || s == "in_progress" then Outline
    else if s == "pending" || s == "created" then Destructive
    else Outline
  }

  /** `getStatusColor`: the colour classes of a shipment status, compared
      case-insensitively; every unknown status gets the gray classes. */
  function StatusColor(status: Option<string>): (c: string)
    ensures c == RedClasses <==> LoweredStatus(status) in FinishedStatuses
    ensures c == GreenClasses <==> LoweredStatus(status) in MatchedStatuses
    ensures c == IndigoClasses <==> LoweredStatus(status) in MovingStatuses
    ensures c == AmberClasses <==> LoweredStatus(status) in OpenStatuses
    ensures c == GrayClasses <==> LoweredStatus(status) !in FinishedStatuses + MatchedStatuses + MovingStatuses + OpenStatuses
  {
    var s := LoweredStatus(status);
    if s == "ended" || s == "completed" then RedClasses
    else if s == "assigned" || s == "accepted" then GreenClasses
    else if s == "in_transit" || s == "in_progress" then IndigoClasses
    else if s == "pending" || s == "created" then AmberClasses
    else GrayClasses
  }

  /** A missing status reads as the empty one, which is unknown. */
  lemma MissingStatus()
    ensures StatusVariant(None) == Outline && StatusColor(None) == GrayClasses
  {
  }

  /** Both rules ignore letter case. */
  lemma StatusRulesIgnoreCase(status: string)
    ensures StatusVariant(Some(status)) == StatusVariant(Some(ToLower(status)))
    ensures StatusColor(Some(status)) == StatusColor(Some(ToLower(status)))
  {
    ToLowerIdempotent(status);
  }

  /** The colour rule uses the same grouping as the variant rule, only
      finer: two statuses with the same colour have the same variant. */
  lemma ColorDeterminesVariant(a: Option<string>, b: Option<string>)
    requires StatusColor(a) == StatusColor(b)
    ensures StatusVariant(a) == StatusVariant(b)
  {
  }

  // ---------------------------------------------------------------------------
  // Shortened addresses

  /** `truncateLocation`: `"-"` for a missing or empty address; otherwise the
      first two comma-separated pieces, trimmed and joined by `", "`, or the
      whole address trimmed when it has no comma. */
  function TruncateLocation(address: Option<string>): (r: string)
    ensures address.None? || address.value == "" ==> r == "-"
  {
    if address.None? || address.value == "" then "-"
    else
      var a := address.value;
      var parts := Split(a, ',');
      if |parts| >= 2 then Trim(parts[0]) + ", " + Trim(parts[1])
      else if |parts| == 1 then Trim(parts[0])
      else Trim(a)
  }

  /** An address without a comma is shown whole, trimmed. */
  lemma TruncateWithoutComma(address: string)
    requires address != "" && ',' !in address
    ensures TruncateLocation(Some(address)) == Trim(address)
  {
  }

  /** With a comma, the piece before the first comma and the piece between
      it and the next comma (or the end) are kept; everything after is
      dropped. */
  lemma TruncateWithComma(address: string, first: nat, second: nat)
    requires first < second <= |address|
    requires address[first] == ',' && ',' !in address[..first]
    requires ',' !in address[first + 1..second]
    requires second == |address| || address[second] == ','
    ensures TruncateLocation(Some(address)) == Trim(address[..first]) + ", " + Trim(address[first + 1..second])
  {
    SplitFirstTwo(address, ',', first, second);
  }

  /** The last fallback of `truncateLocation` is never reached: splitting
      always yields at least one piece, so the shortened address is always
      built from the pieces. */
  lemma TruncateFallbackUnreachable(address: string)
    requires address != ""
    ensures |Split(address, ',')| >= 1
    ensures TruncateLocation(Some(address)) == if ',' in address then Trim(Split(address, ',')[0]) + ", " + Trim(Split(address, ',')[1]) else Trim(address)
  {
  }

  // ---------------------------------------------------------------------------
  // Recent shipments

  const RecentShipmentsShown: nat := 5

  /** The recent shipments listed: the first five of the `data` array, in
      the order received; none when `data` is not an array (`None`). */
  function ShownRecentShipments<T>(data: Option<seq<T>>): (shown: seq<T>)
    ensures |shown| <= RecentShipmentsShown
    ensures data.None? ==> shown == []
    ensures data.Some? ==> |shown| == if |data.value| < RecentShipmentsShown then |data.value| else RecentShipmentsShown
    ensures data.Some? ==> shown == data.value[..|shown|]
  {
    if data.None? then []
    else if |data.value| <= RecentShipmentsShown then data.value
    else data.value[..RecentShipmentsShown]
  }

  // ---------------------------------------------------------------------------
  // Metric cards

  /** `totalRevenue` as the page sees it: a number, with the text the
      locale formatting gives for it, or anything else. */
  datatype Revenue = RevenueNumber(localized: string) | NotANumber

  /** The `dashboard-stat` response fields the cards read; a missing count
      is `None`. */
  datatype DashboardStats = DashboardStats(
    totalUsers: Option<int>,
    totalShipments: Option<int>,
    totalPayments: Option<int>,
    totalRevenue: Revenue)

  datatype Card = Card(title: string, value: string)

  /** The three count cards. */
  datatype Count = Users | Shipments | Payments

  /** `stats?.totalUsers` and its siblings: the count, missing when the
      statistics or the field are missing. */
  function CountOf(stats: Option<DashboardStats>, which: Count): Option<int> {
    if stats.None? then None
    else match which
      case Users => stats.value.totalUsers
      case Shipments => stats.value.totalShipments
      case Payments => stats.value.totalPayments
  }

  /** `stats?.total?.toString() ?? "0"`: the count in decimal, `"0"` when the
      statistics or the count are missing. */
  function CountText(stats: Option<DashboardStats>, which: Count): (text: string)
    ensures CountOf(stats, which).None? ==> text == "0"
    ensures IsCanonicalDecimal(text)
    ensures CountOf(stats, which).Some? ==> DecimalToInt(text) == CountOf(stats, which).value
  {
    var count := CountOf(stats, which);
    if count.Some? then IntToDecimal(count.value)
    else
      assert IsDigit("0"[0]);
      "0"
  }

  /** `$` followed by the formatted revenue when it is a number, `"$0"`
      otherwise. */
  function RevenueText(stats: Option<DashboardStats>): (text: string)
    ensures |text| >= 1 && text[0] == '$'
    ensures stats.None? || stats.value.totalRevenue.NotANumber? ==> text == "$0"
    ensures stats.Some? && stats.value.totalRevenue.RevenueNumber? ==> text[1..] == stats.value.totalRevenue.localized
  {
    if stats.Some? && stats.value.totalRevenue.RevenueNumber? then "$" + stats.value.totalRevenue.localized
    else "$0"
  }

  /** The four metric cards, in page order. */
  function Cards(stats: Option<DashboardStats>): (cards: seq<Card>)
    ensures |cards| == 4
    ensures cards[0].title == "Total Users" && cards[1].title == "Total Shipments"
    ensures cards[2].title == "Total Payments" && cards[3].title == "Total Revenue"
    ensures stats.None? ==> cards[0].value == "0" && cards[1].value == "0" && cards[2].value == "0" && cards[3].value == "$0"
    ensures cards[0].value == CountText(stats, Users) && cards[1].value == CountText(stats, Shipments)
    ensures cards[2].value == CountText(stats, Payments) && cards[3].value == RevenueText(stats)
    ensures CountOf(stats, Users).None? ==> cards[0].value == "0"
    ensures CountOf(stats, Shipments).None? ==> cards[1].value == "0"
    ensures CountOf(stats, Payments).None? ==> cards[2].value == "0"
  {
    [ Card("Total Users", CountText(stats, Users)),
      Card("Total Shipments", CountText(stats, Shipments)),
      Card("Total Payments", CountText(stats, Payments)),
      Card("Total Revenue", RevenueText(stats)) ]
  }

  // ---------------------------------------------------------------------------
  // Error message

  /** `errorMessage`: the statistics error's message when it has one, else the
      recent-shipments error's message, else empty. An error is `Some(m)`
      when the query failed with an `Error` whose message is `m`. */
  function ErrorMessage(statsError: Option<string>, recentError: Option<string>): (message: string)
    ensures statsError.Some? && statsError.value != "" ==> message == statsError.value
    ensures message != "" ==> message == statsError.GetOr("") || message == recentError.GetOr("")
    ensures message == "" <==> statsError.GetOr("") == "" && recentError.GetOr("") == ""
    ensures statsError.GetOr("") == "" ==> message == recentError.GetOr("")
  {
    var first := if statsError.Some? then statsError.value else "";
    if first != "" then first else if recentError.Some? then recentError.value else ""
  }
}
