/**
 * The small pure helpers of NativeApp.cpp: the `removePath` file-name helper
 * used by the logging macros, and the answers the host glue gives to the
 * emulator's `System_GetProperty`, `System_GetPropertyInt` and
 * `System_GetPropertyBool` queries.
 *
 * C strings and `std::string` are modelled as `string`; the OS locale, read
 * with `setlocale` in the source, is a parameter.
 */
module NativeSystem {

  /** Position of the last `ch` in `s`, or -1 when there is none (`strrchr`). */
  function LastIndexOf(s: string, ch: char): (k: int)
    ensures -1 <= k < |s|
    ensures k >= 0 ==> s[k] == ch
    ensures forall j :: k < j < |s| ==> s[j] != ch
    decreases |s|
  {
    if s == [] then -1
    else if s[|s| - 1] == ch then |s| - 1
    else LastIndexOf(s[..|s| - 1], ch)
  }

  /** Position of the first `ch` in `s`, or -1 for `std::string::npos` (`find(ch, 0)`). */
  function IndexOf(s: string, ch: char): (k: int)
    ensures -1 <= k < |s|
    ensures k >= 0 ==> s[k] == ch
    ensures forall j :: 0 <= j < |s| && (k < 0 || j < k) ==> s[j] != ch
    decreases |s|
  {
    if s == [] then -1
    else if s[0] == ch then 0
    else
      var k := IndexOf(s[1..], ch);
      if k < 0 then -1 else k + 1
  }

  /**
   * `removePath`: the part of `path` after its last '/', or all of `path`
   * when it has no '/'. The result is a suffix of `path` holding no '/',
   * and when `path` has a '/' the character just before the result is that
   * last '/'.
   */
  function RemovePath(path: string): (name: string)
    ensures |name| <= |path| && name == path[|path| - |name|..]
    ensures '/' !in name
    ensures '/' !in path ==> name == path
    ensures '/' in path ==> |name| < |path| && path[|path| - |name| - 1] == '/'
  {
    path[LastIndexOf(path, '/') + 1..]
  }

  /**
   * The SYSPROP_LANGREGION answer for the OS locale string `locale`: a locale
   * holding '_' is cut at its first '.', or kept whole when it has no '.';
   * any other locale (the empty one included) gives "en_US".
   */
  function LocaleToLangRegion(locale: string): (region: string)
    ensures '_' in locale && '.' in locale ==>
              region < locale && locale[|region|] == '.' && '.' !in region
    ensures '_' in locale && '.' !in locale ==> region == locale
    ensures '_' !in locale ==> region == "en_US"
  {
    if |locale| > 0 then
      if IndexOf(locale, '_') >= 0 then
        var dot := IndexOf(locale, '.');
        if dot >= 0 then locale[..dot] else locale
      else "en_US"
    else "en_US"
  }

  /**
   * A locale written language_TERRITORY[.codeset], where the first '_' comes
   * before the first '.', keeps its territory separator in the answer.
   */
  lemma LangRegionKeepsTerritory(locale: string)
    requires '_' in locale
    requires '.' in locale ==> IndexOf(locale, '_') < IndexOf(locale, '.')
    ensures '_' in LocaleToLangRegion(locale)
  {
    var u := IndexOf(locale, '_');
    assert locale[u] == '_';
    if '.' in locale {
      var dot := IndexOf(locale, '.');
      assert LocaleToLangRegion(locale) == locale[..dot];
      assert locale[..dot][u] == '_';
    }
  }

  /** The properties the host glue answers; every other one is `Other`. */
  datatype SystemProperty =
    | Name
    | LangRegion
    | AudioSampleRate
    | DisplayRefreshRate
    | HasBackButton
    | AppGold
    | Other

  /** `System_GetProperty`: the host's name, the locale's language and region, or "". */
  function GetProperty(prop: SystemProperty, locale: string): (r: string)
    ensures prop == Name ==> r == "OpenEmu:"
    ensures prop == LangRegion ==> r == LocaleToLangRegion(locale)
    ensures prop != Name && prop != LangRegion ==> r == ""
  {
    match prop
    case Name => "OpenEmu:"
    case LangRegion => LocaleToLangRegion(locale)
    case _ => ""
  }

  /**
   * `System_GetPropertyInt`: a 44100 Hz audio sample rate, a 60000 display
   * refresh rate (in thousandths of a hertz), and -1 for every property it
   * does not know.
   */
  function GetPropertyInt(prop: SystemProperty): (r: int)
    ensures r > 0 <==> prop == AudioSampleRate || prop == DisplayRefreshRate
    ensures prop == AudioSampleRate ==> r == 44100
    ensures prop == DisplayRefreshRate ==> r == 60000
    ensures r <= 0 ==> r == -1
  {
    match prop
    case AudioSampleRate => 44100
    case DisplayRefreshRate => 60000
    case _ => -1
  }

  /**
   * `System_GetPropertyBool`: a back button is always reported, the "gold"
   * edition only in a build with GOLD defined (`goldBuild`), anything else
   * is false.
   */
  function GetPropertyBool(prop: SystemProperty, goldBuild: bool): (r: bool)
    ensures r <==> prop == HasBackButton || (prop == AppGold && goldBuild)
  {
    match prop
    case HasBackButton => true
    case AppGold => goldBuild
    case _ => false
  }
}
