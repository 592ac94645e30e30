/**
 * The parameter strings of the standalone scan's docker command: the `-e NAME=value`
 * options passed to the scanner container, present only for a non-empty value, and the
 * registry host prefix of the scanner image.
 */
module Standalone {
  import opened Wrappers
  import opened JsText

  /** The text of the option that sets the environment variable `name`, up to its value. */
  function FlagPrefix(name: string): string
  {
    "-e " + name + "="
  }

  /** `value ? "-e NAME=" + value : ""` */
  function EnvFlag(name: string, value: Option<string>): string
  {
    if Present(value) then FlagPrefix(name) + value.value else ""
  }

  /** The value an option string sets for `name`, if it is such an option. */
  function FlagValue(name: string, param: string): (v: Option<string>)
    ensures v.Some? ==> param == FlagPrefix(name) + v.value
  {
    var p := FlagPrefix(name);
    if |p| <= |param| && param[..|p|] == p then
      assert param == p + param[|p|..];
      Some(param[|p|..])
    else None
  }

  /** The option carries exactly the value it was built from, and is empty for a missing value. */
  lemma FlagRoundTrip(name: string, value: Option<string>)
    ensures FlagValue(name, EnvFlag(name, value)) == (if Present(value) then value else None)
    ensures EnvFlag(name, value) == "" <==> !Present(value)
  {
    var p := FlagPrefix(name);
    assert |p| >= 1 by { assert p[0] == '-'; }
    if Present(value) {
      var param := p + value.value;
      assert param[..|p|] == p;
      assert param[|p|..] == value.value;
    }
  }

  const RegistryVariable := "SCANNER_REGISTRY"
  const UsernameVariable := "SCANNER_REGISTRY_USERNAME"
  const PasswordVariable := "SCANNER_REGISTRY_PASSWORD"
  const ScanLayersVariable := "SCANNER_SCAN_LAYERS"

  /** `scannerRegistryUrlParam`, `scannerRegistryUserParam` and `scannerRegistryPasswordParam`. */
  function RegistryParams(url: Option<string>, username: Option<string>, password: Option<string>): seq<string>
  {
    [EnvFlag(RegistryVariable, url), EnvFlag(UsernameVariable, username), EnvFlag(PasswordVariable, password)]
  }

  /** `scanLayers ? "-e SCANNER_SCAN_LAYERS=true" : ""` */
  function ScanLayersParam(scanLayers: bool): string
  {
    EnvFlag(ScanLayersVariable, if scanLayers then Some("true") else None)
  }

  lemma ScanLayersRoundTrip(scanLayers: bool)
    ensures FlagValue(ScanLayersVariable, ScanLayersParam(scanLayers)) == (if scanLayers then Some("true") else None)
    ensures ScanLayersParam(scanLayers) == "" <==> !scanLayers
  {
    FlagRoundTrip(ScanLayersVariable, if scanLayers then Some("true") else None);
  }

  // ----- The registry host of the scanner image

  /** `u` starts with `http` in any case of its letters. */
  predicate HttpLetters(u: string)
  {
    |u| >= 4 && LowerChar(u[0]) == 'h' && LowerChar(u[1]) == 't' && LowerChar(u[2]) == 't' && LowerChar(u[3]) == 'p'
  }

  predicate SeparatorAt(u: string, i: nat)
  {
    i + 3 <= |u| && u[i] == ':' && u[i + 1] == '/' && u[i + 2] == '/'
  }

  /**
   * The length of the prefix `/^https?:\/\//i` removes: 8, 7, or 0 when it does not match
   * (which prefix each length stands for is `SchemeLengthMatches`).
   */
  function SchemeLength(u: string): (n: nat)
    ensures n == 0 || n == 7 || n == 8
    ensures n <= |u|
  {
    if HttpLetters(u) && |u| >= 5 && LowerChar(u[4]) == 's' && SeparatorAt(u, 5) then 8
    else if HttpLetters(u) && SeparatorAt(u, 4) then 7
    else 0
  }

  /** `u.replace(/^https?:\/\//i, "")` */
  function StripScheme(u: string): (t: string)
    ensures |t| <= |u| && t == u[|u| - |t|..]
  {
    u[SchemeLength(u)..]
  }

  /** `s.split('/')[0]`: the text before the first slash, or all of it. */
  function FirstSegment(s: string): (host: string)
    ensures |host| <= |s| && host == s[..|host|]
    ensures '/' !in host
    ensures |host| < |s| ==> s[|host|] == '/'
    decreases |s|
  {
    if s == [] || s[0] == '/' then ""
    else [s[0]] + FirstSegment(s[1..])
  }

  /**
   * `nvRegistryUrl ? nvRegistryUrl.replace(/^https?:\/\//i, "").split('/')[0] + "/" : ""`:
   * the host of the registry URL, ended by a slash, without scheme or path.
   */
  function NvRegistryUrlParam(url: Option<string>): (r: string)
    ensures !Present(url) ==> r == ""
    ensures Present(url) ==>
      |r| >= 1 && r[|r| - 1] == '/' &&
      var t, host := StripScheme(url.value), r[..|r| - 1];
      '/' !in host && |host| <= |t| && t[..|host|] == host && (|host| == |t| || t[|host|] == '/')
  {
    if Present(url) then
      var host := FirstSegment(StripScheme(url.value));
      assert (host + "/")[..|host|] == host;
      host + "/"
    else ""
  }

  /** The lower case of a prefix of `u` is `p` exactly when each of its characters lowers to `p`'s. */
  lemma LowerPrefix(u: string, p: string)
    requires |p| <= |u|
    ensures ToLower(u[..|p|]) == p <==> forall i :: 0 <= i < |p| ==> LowerChar(u[i]) == p[i]
  {
    var l := ToLower(u[..|p|]);
    if forall i :: 0 <= i < |p| ==> LowerChar(u[i]) == p[i] {
      assert forall i :: 0 <= i < |p| ==> l[i] == p[i];
    }
  }

  /**
   * The scheme that goes is the one the expression matches, whatever the case of its
   * letters: 8 characters for `https://`, 7 for `http://`, none otherwise.
   */
  lemma SchemeLengthMatches(u: string)
    ensures SchemeLength(u) == 8 <==> |u| >= 8 && ToLower(u[..8]) == "https://"
    ensures SchemeLength(u) == 7 <==> |u| >= 7 && ToLower(u[..7]) == "http://"
    ensures SchemeLength(u) == 0 <==>
              !(|u| >= 8 && ToLower(u[..8]) == "https://") && !(|u| >= 7 && ToLower(u[..7]) == "http://")
  {
    var https, http := "https://", "http://";
    assert https[0] == 'h' && https[1] == 't' && https[2] == 't' && https[3] == 'p' && https[4] == 's';
    assert https[5] == ':' && https[6] == '/' && https[7] == '/';
    assert http[0] == 'h' && http[1] == 't' && http[2] == 't' && http[3] == 'p';
    assert http[4] == ':' && http[5] == '/' && http[6] == '/';
    if |u| >= 8 {
      LowerPrefix(u, https);
    }
    if |u| >= 7 {
      LowerPrefix(u, http);
    }
  }

  /**
   * A URL whose scheme is `http://` or `https://`, in any letter case, followed by a
   * slash-free host and then nothing or a path, gives that host.
   */
  lemma NvRegistryOfSchemeUrl(scheme: string, host: string, path: string)
    requires ToLower(scheme) == "https://" || ToLower(scheme) == "http://"
    requires '/' !in host
    requires path == "" || path[0] == '/'
    ensures NvRegistryUrlParam(Some(scheme + host + path)) == host + "/"
  {
    var u := scheme + host + path;
    assert u[..|scheme|] == scheme;
    SchemeLengthMatches(u);
    assert SchemeLength(u) == |scheme|;
    assert StripScheme(u) == host + path;
    FirstSegmentOf(host, path);
  }

  /** A lower-case `https://` scheme, the common form. */
  lemma NvRegistryOfHttpsUrl(host: string, path: string)
    requires '/' !in host
    requires path == "" || path[0] == '/'
    ensures NvRegistryUrlParam(Some("https://" + host + path)) == host + "/"
  {
    assert ToLower("https://") == "https://";
    NvRegistryOfSchemeUrl("https://", host, path);
  }

  /** Without a scheme the whole text before the first slash is the host. */
  lemma NvRegistryOfBareHost(host: string, path: string)
    requires '/' !in host && SchemeLength(host + path) == 0 && host + path != ""
    requires path == "" || path[0] == '/'
    ensures NvRegistryUrlParam(Some(host + path)) == host + "/"
  {
    FirstSegmentOf(host, path);
  }

  /** The first segment of a slash-free text followed by nothing or a slash is that text. */
  lemma {:induction false} FirstSegmentOf(host: string, path: string)
    requires '/' !in host
    requires path == "" || path[0] == '/'
    ensures FirstSegment(host + path) == host
    decreases |host|
  {
    if host != [] {
      assert (host + path)[1..] == host[1..] + path;
      FirstSegmentOf(host[1..], path);
      assert [host[0]] + host[1..] == host;
    } else {
      assert host + path == path;
    }
  }
}
