/**
 * What the screens read from secure storage under `gemini_api_key`, and the
 * routes they navigate to.
 */
module Navigation {
  import opened Wrappers

  /** The secure-storage key both screens read. */
  const ApiKeyName: string := "gemini_api_key"

  /**
   * The outcome of `SecureStore.getItemAsync(ApiKeyName)`: the stored value
   * (`None` when nothing is stored), or a rejection carrying the error's
   * `message` property, if it has one.
   */
  datatype KeyLookup = KeyRead(key: Option<string>) | LookupFailed(message: Option<string>)

  /** JavaScript truthiness of the stored key: present and not the empty string. */
  predicate HasKey(key: Option<string>) {
    key.Some? && key.value != ""
  }

  /** The first route segment of every screen in the onboarding group. */
  const OnboardingGroup: string := "(onboarding)"

  /** The two routes the screens replace the current one with. */
  datatype Route = OnboardingApiKey | Tabs

  function Path(route: Route): string {
    match route
    case OnboardingApiKey => "/(onboarding)/apikey"
    case Tabs => "/(tabs)"
  }

  /**
   * The route segments the router reports once the route is shown: there is a
   * first segment, and it is the onboarding group exactly for the key screen.
   */
  function Segments(route: Route): (r: seq<string>)
    ensures r != []
    ensures r[0] == OnboardingGroup <==> route == OnboardingApiKey
  {
    match route
    case OnboardingApiKey => ["(onboarding)", "apikey"]
    case Tabs => ["(tabs)"]
  }

  /** A path built from segments, each preceded by a slash. */
  function JoinPath(segments: seq<string>): string {
    if segments == [] then "" else "/" + segments[0] + JoinPath(segments[1..])
  }

  /** Each route's path is made of the segments the router reports for it. */
  lemma PathOfSegments(route: Route)
    ensures Path(route) == JoinPath(Segments(route))
  {
    match route
    case OnboardingApiKey =>
      var segs := Segments(route);
      assert segs[1..] == ["apikey"];
      assert segs[1..][1..] == [];
      assert JoinPath(segs[1..]) == "/apikey";
      assert JoinPath(segs) == "/" + "(onboarding)" + "/apikey";
    case Tabs =>
      assert Segments(route)[1..] == [];
  }
}
