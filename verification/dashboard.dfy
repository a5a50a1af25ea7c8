/** The dashboard shell: the action it suggests for the hour of day, what a
    click on a card records, and which section view it shows. */
module Dashboard {
  import opened Results
  import opened Sequences

  /** The actions the shell can suggest; it stores them as the keys
      "morning_report", "performance_check" and "daily_summary". */
  datatype Action = MorningReport | PerformanceCheck | DailySummary

  /** The prediction effect, run once on mount with the current hour: the
      three windows are checked in order, and an hour in none of them leaves
      the suggestion at its initial null. The third test also names hour 16,
      but the second has already claimed it, so the evening summary covers 17
      and 18 only. */
  function Predict(hour: int): (r: Option<Action>)
    ensures r == Some(MorningReport) <==> 9 <= hour <= 11
    ensures r == Some(PerformanceCheck) <==> 14 <= hour <= 16
    ensures r == Some(DailySummary) <==> 17 <= hour <= 18
    ensures r == None <==> !(9 <= hour <= 11 || 14 <= hour <= 18)
  {
    if 9 <= hour <= 11 then Some(MorningReport)
    else if 14 <= hour <= 16 then Some(PerformanceCheck)
    else if 16 <= hour <= 18 then Some(DailySummary)
    else None
  }

  // ---------------------------------------------------------------------
  // Card clicks

  /** How many recent card clicks are remembered. */
  const RecentLimit: nat := 5

  datatype Preferences = Preferences(
    favoriteSection: string,
    commonActions: seq<string>,
    timePatterns: map<string, string>)

  /** The part of the shell's state a card click touches. */
  datatype Shell = Shell(
    activeSection: string,
    selectedCard: Option<string>,
    showRightPanel: bool,
    lastAction: Option<string>,
    preferences: Preferences)

  const InitialShell: Shell :=
    Shell("dashboard", None, false, None, Preferences("dashboard", [], map[]))

  /** A click on the card `id`: it is selected, the right panel opens, it
      becomes the last action, and it is appended to the recent actions, of
      which only the newest five are kept. */
  function CardClick(s: Shell, id: string): (r: Shell)
    ensures r.selectedCard == Some(id) && r.showRightPanel && r.lastAction == Some(id)
    ensures var recent := r.preferences.commonActions;
            && |recent| <= RecentLimit
            && recent != [] && recent[|recent| - 1] == id
            && |recent| == (if |s.preferences.commonActions| < RecentLimit
                            then |s.preferences.commonActions| + 1 else RecentLimit)
            && (|s.preferences.commonActions| < RecentLimit ==> recent == s.preferences.commonActions + [id])
            && IsSuffix(recent, s.preferences.commonActions + [id])
    ensures r.activeSection == s.activeSection
    ensures r.preferences.favoriteSection == s.preferences.favoriteSection
    ensures r.preferences.timePatterns == s.preferences.timePatterns
  {
    var recent := TakeLast(s.preferences.commonActions + [id], RecentLimit);
    s.(selectedCard := Some(id), showRightPanel := true, lastAction := Some(id),
       preferences := s.preferences.(commonActions := recent))
  }

  /** Clicking the cards of `ids` in turn. */
  function CardClicks(s: Shell, ids: seq<string>): Shell
    decreases |ids|
  {
    if ids == [] then s else CardClicks(CardClick(s, ids[0]), ids[1..])
  }

  /** Truncating to the last `n` before appending more does not change the
      last `n` afterwards. */
  lemma TakeLastConcat<T>(a: seq<T>, b: seq<T>, n: nat)
    requires n > 0
    ensures TakeLast(TakeLast(a, n) + b, n) == TakeLast(a + b, n)
  {
    if |a| > n {
      var t := TakeLast(a, n);
      var x, y := TakeLast(t + b, n), TakeLast(a + b, n);
      assert |x| == |y| == n;
      forall k | 0 <= k < n ensures x[k] == y[k] {
        assert x[k] == (t + b)[|t + b| - n + k];
        assert y[k] == (a + b)[|a + b| - n + k];
        if |b| + k < n {
          assert (t + b)[|t + b| - n + k] == t[|b| + k] == a[|a| - n + |b| + k];
          assert (a + b)[|a + b| - n + k] == a[|a| + |b| - n + k];
        } else {
          assert (t + b)[|t + b| - n + k] == b[|b| + k - n];
          assert (a + b)[|a + b| - n + k] == b[|b| + k - n];
        }
      }
    } else {
      assert TakeLast(a, n) == a;
    }
  }

  lemma SplitFirst<T>(a: seq<T>, b: seq<T>)
    requires b != []
    ensures a + b == (a + [b[0]]) + b[1..]
  {
  }

  /** However many cards are clicked, the recent actions are the newest five
      of everything recorded so far, oldest first. */
  lemma {:induction false} RecentActionsAreNewest(s: Shell, ids: seq<string>)
    requires |s.preferences.commonActions| <= RecentLimit
    ensures CardClicks(s, ids).preferences.commonActions
            == TakeLast(s.preferences.commonActions + ids, RecentLimit)
    decreases |ids|
  {
    var before := s.preferences.commonActions;
    if ids == [] {
      assert before + ids == before;
    } else {
      var a := before + [ids[0]];
      var next := CardClick(s, ids[0]);
      RecentActionsAreNewest(next, ids[1..]);
      TakeLastConcat(a, ids[1..], RecentLimit);
      SplitFirst(before, ids);
    }
  }

  // ---------------------------------------------------------------------
  // Section dispatch

  datatype View = ConversationsView | WorkflowView | KnowledgeView | PerformanceView | DashboardView

  /** `renderMainContent`: the four named sections have their own views;
      every other value of the active section shows the dashboard. */
  function RenderMainContent(section: string): (r: View)
    ensures r == DashboardView <==> section !in ["conversations", "workflow", "knowledge", "performance"]
    ensures r != DashboardView ==> SectionName(r) == section
  {
    match section
    case "conversations" => ConversationsView
    case "workflow" => WorkflowView
    case "knowledge" => KnowledgeView
    case "performance" => PerformanceView
    case _ => DashboardView
  }

  /** The section value the sidebar sets for each view. */
  function SectionName(v: View): string {
    match v
    case ConversationsView => "conversations"
    case WorkflowView => "workflow"
    case KnowledgeView => "knowledge"
    case PerformanceView => "performance"
    case DashboardView => "dashboard"
  }

  /** Every view is reached from its own section name, and the shell starts
      on the dashboard. */
  lemma DispatchRoundTrip(v: View)
    ensures RenderMainContent(SectionName(v)) == v
    ensures RenderMainContent(InitialShell.activeSection) == DashboardView
  {
  }
}
