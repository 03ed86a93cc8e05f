/**
 * The root layout: a spinner until the database is initialised, then the
 * navigation stack, and the check that sends a user without an API key to
 * onboarding and a user with one out of it.
 */
module RootLayout {
  import opened Wrappers
  import opened Navigation

  /** The current route is inside the onboarding group; an empty route is not. */
  predicate InOnboarding(segments: seq<string>) {
    |segments| > 0 && segments[0] == OnboardingGroup
  }

  /**
   * The `checkAuth` decision: no key outside onboarding goes to the key
   * screen, a key inside onboarding goes to the tabs; a failed key read is
   * logged and changes nothing.
   */
  function Redirect(lookup: KeyLookup, segments: seq<string>): Option<Route> {
    match lookup
    case LookupFailed(_) => None
    case KeyRead(key) =>
      if !HasKey(key) && !InOnboarding(segments) then Some(OnboardingApiKey)
      else if HasKey(key) && InOnboarding(segments) then Some(Tabs)
      else None
  }

  /** The four cases of the decision, each in both directions. */
  lemma RedirectCases(lookup: KeyLookup, segments: seq<string>)
    ensures Redirect(lookup, segments) == Some(OnboardingApiKey) <==>
      lookup.KeyRead? && !HasKey(lookup.key) && !InOnboarding(segments)
    ensures Redirect(lookup, segments) == Some(Tabs) <==>
      lookup.KeyRead? && HasKey(lookup.key) && InOnboarding(segments)
    ensures Redirect(lookup, segments).None? <==>
      lookup.LookupFailed? || (HasKey(lookup.key) <==> !InOnboarding(segments))
  {
  }

  /**
   * A redirect lands where the same check asks for no further redirect, so
   * with an unchanged key the check settles after at most one navigation.
   */
  lemma RedirectSettles(lookup: KeyLookup, segments: seq<string>)
    requires Redirect(lookup, segments).Some?
    ensures Redirect(lookup, Segments(Redirect(lookup, segments).value)).None?
  {
  }

  /** A user with a key is never sent to onboarding, and one without is never sent to the tabs. */
  lemma RedirectRespectsKey(lookup: KeyLookup, segments: seq<string>)
    ensures lookup.KeyRead? && HasKey(lookup.key) ==> Redirect(lookup, segments) != Some(OnboardingApiKey)
    ensures lookup.KeyRead? && !HasKey(lookup.key) ==> Redirect(lookup, segments) != Some(Tabs)
  {
  }

  /** What the layout renders. */
  datatype Screen = Spinner | Stack

  /** One mounted root layout. `databaseReady` records that `initDatabase` has resolved. */
  class Layout {
    var isReady: bool
    var databaseReady: bool

    /** The app is never ready before its database. */
    ghost predicate Valid()
      reads this
    {
      isReady ==> databaseReady
    }

    constructor ()
      ensures !isReady && !databaseReady
      ensures Valid()
    {
      isReady := false;
      databaseReady := false;
    }

    /**
     * The mount effect `initializeApp`: once `initDatabase` resolves the layout
     * becomes ready; if it rejects, nothing is set and the layout stays on the
     * spinner.
     */
    method InitializeApp(initSucceeded: bool)
      requires Valid()
      modifies this
      ensures Valid()
      ensures databaseReady == (old(databaseReady) || initSucceeded)
      ensures isReady == (old(isReady) || initSucceeded)
    {
      if initSucceeded {
        databaseReady := true;
        isReady := true;
      }
    }

    /** The redirect effect: before the layout is ready it returns early and reads nothing. */
    method CheckAuth(lookup: KeyLookup, segments: seq<string>) returns (navigate: Option<Route>)
      requires Valid()
      ensures !isReady ==> navigate.None?
      ensures isReady ==> navigate == Redirect(lookup, segments)
      ensures navigate.Some? ==> databaseReady
    {
      if !isReady {
        return None;
      }
      navigate := Redirect(lookup, segments);
    }

    /** The `isReady` gate on what is rendered. */
    function Render(): (screen: Screen)
      reads this
      requires Valid()
      ensures screen == Stack <==> isReady
      ensures screen == Stack ==> databaseReady
    {
      if isReady then Stack else Spinner
    }
  }
}
