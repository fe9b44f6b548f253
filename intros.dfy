/**
 * The product tours: for each page, the tour's steps with the element
 * each one points at, kept only when that element is present, and
 * whether the tour shows bullets.
 */
module Intros {
  import opened Wrappers
  import opened Seqs

  /** The tours, one per page. */
  datatype TourName =
    | Dashboard | Inbox | Jobs | Marketing | LeadsNew
    | SettingsProfile | SettingsPublicProfile | SettingsClients | SettingsBrand | SettingsFinances

  /**
   * One step: its title, the selector its element is looked up with
   * inside the page (`None` for the literal empty string) and its
   * position. The intro text is not modelled.
   */
  datatype Step = Step(title: string, selector: Option<string>, position: string)

  /** A tour as handed to the tour library. */
  datatype Tour = Tour(showBullets: Option<bool>, steps: seq<Step>)

  const Position := "bottom-middle-aligned"

  function S(title: string, selector: string): Step {
    Step(title, Some(selector), Position)
  }

  /** The tours' literal steps, in order. */
  const DashboardSteps: seq<Step> := [
    S("Welcome to Picsello!", "h1"),
    S("Next Up section", ".intro-next-up"),
    S("Confirm your email", ".intro-confirmation"),
    S("Getting started guide", ".intro-help-scout"),
    S("Connect to Stripe", ".intro-stripe"),
    S("Create your first lead", ".intro-leads-card"),
    Step("Packages", None, Position),
    S("Your inbox", ".intro-inbox"),
    S("Marketing", ".intro-marketing")]

  const InboxSteps: seq<Step> := [S("Welcome to your inbox!", "h1")]

  const JobsSteps: seq<Step> := [
    S("Communication", ".intro-message"),
    S("Uploading your gallery", ".intro-gallery"),
    S("Shoot details", "[phx-value-section_id=\"shoot-details\"] h2"),
    S("Booking details", "[phx-value-section_id=\"booking-details\"] h2")]

  const MarketingSteps: seq<Step> := [
    S("Next Up", ".intro-next-up"),
    S("Brand links", ".intro-brand-links"),
    S("Promotional emails", ".intro-promotional")]

  const LeadsNewSteps: seq<Step> := [
    S("Yay!", "h1"),
    S("Add a package", ".intro-add-package"),
    S("Connect Stripe", ".intro-stripe"),
    S("Send a proposal", ".intro-finish-proposal")]

  const SettingsProfileSteps: seq<Step> := [S("Account", "#intro_settings_profile h1")]

  const SettingsPublicProfileSteps: seq<Step> := [
    S("Public Profile", "#intro_settings_public_profile h1"),
    S("Embed your lead form", "#intro_settings_public_profile .intro-lead-form")]

  const SettingsClientsSteps: seq<Step> := [S("Clients", "#intro_settings_clients h1")]

  const SettingsBrandSteps: seq<Step> := [S("Setup your signature", "#intro_settings_brand .intro-signature")]

  const SettingsFinancesSteps: seq<Step> := [
    S("Tax settings", "#intro_settings_finances .intro-taxes"),
    S("Viewing Stripe", "#intro_settings_finances .intro-stripe")]

  /** Every step written in the tour's literal, in order. */
  function LiteralSteps(name: TourName): seq<Step> {
    match name
    case Dashboard => DashboardSteps
    case Inbox => InboxSteps
    case Jobs => JobsSteps
    case Marketing => MarketingSteps
    case LeadsNew => LeadsNewSteps
    case SettingsProfile => SettingsProfileSteps
    case SettingsPublicProfile => SettingsPublicProfileSteps
    case SettingsClients => SettingsClientsSteps
    case SettingsBrand => SettingsBrandSteps
    case SettingsFinances => SettingsFinancesSteps
  }

  /** The `showBullets` property: `None` where the literal has none. */
  function ShowBullets(name: TourName): Option<bool> {
    match name
    case Inbox | SettingsProfile | SettingsClients | SettingsBrand | SettingsFinances => Some(false)
    case Jobs | SettingsPublicProfile => Some(true)
    case Dashboard | Marketing | LeadsNew => None
  }

  /**
   * `obj?.element` is truthy: the step names a selector and the page has
   * a matching element. `found` says which selectors match inside the
   * page element.
   */
  predicate Shown(step: Step, found: string -> bool) {
    step.selector.Some? && found(step.selector.value)
  }

  /** The tour built for the page: the literal's steps filtered by their element. */
  function Intro(name: TourName, found: string -> bool): (r: Tour)
    ensures r.showBullets == ShowBullets(name)
    ensures IsSubsequence(r.steps, LiteralSteps(name)) && |r.steps| <= |LiteralSteps(name)|
    ensures forall st :: st in r.steps <==> st in LiteralSteps(name) && Shown(st, found)
  {
    var keep: Step -> bool := st => Shown(st, found);
    FilterIsSubsequence(LiteralSteps(name), keep);
    Tour(ShowBullets(name), Filter(LiteralSteps(name), keep))
  }

  /** The dashboard's "Packages" step has an empty element and never appears. */
  lemma PackagesNeverShown(found: string -> bool)
    ensures DashboardSteps[6].title == "Packages" && DashboardSteps[6] !in Intro(Dashboard, found).steps
    ensures |Intro(Dashboard, found).steps| <= 8
  {
    var keep: Step -> bool := st => Shown(st, found);
    assert DashboardSteps[6] == Step("Packages", None, Position);
    FilterDrops(DashboardSteps, keep, 6);
  }

  /** Every step of every tour is placed bottom-middle-aligned. */
  lemma AllBottomMiddle(name: TourName, found: string -> bool)
    ensures forall st :: st in Intro(name, found).steps ==> st.position == Position
  {
    LiteralPositions(name);
    var lit := LiteralSteps(name);
    assert forall st :: st in lit ==> st.position == Position;
  }

  lemma LiteralPositions(name: TourName)
    ensures forall k :: 0 <= k < |LiteralSteps(name)| ==> LiteralSteps(name)[k].position == Position
  {
    match name
    case Dashboard => assert forall k :: 0 <= k < |DashboardSteps| ==> DashboardSteps[k].position == Position;
    case Inbox => assert forall k :: 0 <= k < |InboxSteps| ==> InboxSteps[k].position == Position;
    case Jobs => assert forall k :: 0 <= k < |JobsSteps| ==> JobsSteps[k].position == Position;
    case Marketing => assert forall k :: 0 <= k < |MarketingSteps| ==> MarketingSteps[k].position == Position;
    case LeadsNew => assert forall k :: 0 <= k < |LeadsNewSteps| ==> LeadsNewSteps[k].position == Position;
    case SettingsProfile => assert forall k :: 0 <= k < |SettingsProfileSteps| ==> SettingsProfileSteps[k].position == Position;
    case SettingsPublicProfile => assert forall k :: 0 <= k < |SettingsPublicProfileSteps| ==> SettingsPublicProfileSteps[k].position == Position;
    case SettingsClients => assert forall k :: 0 <= k < |SettingsClientsSteps| ==> SettingsClientsSteps[k].position == Position;
    case SettingsBrand => assert forall k :: 0 <= k < |SettingsBrandSteps| ==> SettingsBrandSteps[k].position == Position;
    case SettingsFinances => assert forall k :: 0 <= k < |SettingsFinancesSteps| ==> SettingsFinancesSteps[k].position == Position;
  }

  /** Outside the dashboard, on a page where every selector matches, every step is kept, in order. */
  lemma FullPageKeepsEveryStep(name: TourName, found: string -> bool)
    requires name != Dashboard
    requires forall k :: 0 <= k < |LiteralSteps(name)| && LiteralSteps(name)[k].selector.Some? ==>
      found(LiteralSteps(name)[k].selector.value)
    ensures Intro(name, found).steps == LiteralSteps(name)
  {
    var keep: Step -> bool := st => Shown(st, found);
    LiteralSelectors(name);
    FilterAll(LiteralSteps(name), keep);
  }

  /** Only the dashboard has a step without a selector. */
  lemma LiteralSelectors(name: TourName)
    requires name != Dashboard
    ensures forall k :: 0 <= k < |LiteralSteps(name)| ==> LiteralSteps(name)[k].selector.Some?
  {
    match name
    case Inbox => assert forall k :: 0 <= k < |InboxSteps| ==> InboxSteps[k].selector.Some?;
    case Jobs => assert forall k :: 0 <= k < |JobsSteps| ==> JobsSteps[k].selector.Some?;
    case Marketing => assert forall k :: 0 <= k < |MarketingSteps| ==> MarketingSteps[k].selector.Some?;
    case LeadsNew => assert forall k :: 0 <= k < |LeadsNewSteps| ==> LeadsNewSteps[k].selector.Some?;
    case SettingsProfile => assert forall k :: 0 <= k < |SettingsProfileSteps| ==> SettingsProfileSteps[k].selector.Some?;
    case SettingsPublicProfile => assert forall k :: 0 <= k < |SettingsPublicProfileSteps| ==> SettingsPublicProfileSteps[k].selector.Some?;
    case SettingsClients => assert forall k :: 0 <= k < |SettingsClientsSteps| ==> SettingsClientsSteps[k].selector.Some?;
    case SettingsBrand => assert forall k :: 0 <= k < |SettingsBrandSteps| ==> SettingsBrandSteps[k].selector.Some?;
    case SettingsFinances => assert forall k :: 0 <= k < |SettingsFinancesSteps| ==> SettingsFinancesSteps[k].selector.Some?;
  }
}
