/**
 * Platform detection and the per-platform profile table. The process
 * environment, whether `jnius` can be imported and `platform.system()`
 * are inputs.
 */
module PlatformConfig {
  import opened Common
  import opened Strings

  datatype Platform = Windows | Android | Linux

  function PlatformName(p: Platform): string {
    match p
    case Windows => "windows"
    case Android => "android"
    case Linux => "linux"
  }

  /** The profile a platform runs with. */
  datatype Config = Config(
    platform: Platform,
    ttsEngine: string,
    uiFramework: string,
    supportsLocalTts: bool,
    requiresInternet: bool,
    tempDir: string,
    maxContextTokens: int)

  const DefaultMaxContextTokens := 25000

  /** The Android markers in the environment, or an importable `jnius`. */
  predicate AndroidMarkers(env: map<string, string>, hasJnius: bool) {
    "ANDROID_ROOT" in env || "ANDROID_DATA" in env || hasJnius
  }

  /**
   * `detect_platform`: the Android markers win over the system name;
   * otherwise "win" anywhere in the lowered name means Windows (so
   * "Darwin" does too), "linux" means Linux, and anything else Windows.
   */
  function DetectPlatform(env: map<string, string>, hasJnius: bool, system: string): (p: Platform)
    ensures AndroidMarkers(env, hasJnius) ==> p == Android
    ensures p == Android ==> AndroidMarkers(env, hasJnius)
    ensures p == Linux <==> !AndroidMarkers(env, hasJnius) && !Contains(Lower(system), "win") && Contains(Lower(system), "linux")
  {
    var s := Lower(system);
    if "ANDROID_ROOT" in env || "ANDROID_DATA" in env then Android
    else if hasJnius then Android
    else if Contains(s, "win") then Windows
    else if Contains(s, "linux") then Linux
    else Windows
  }

  /** The constructor, with its default token budget. */
  function NewConfig(platform: Platform, ttsEngine: string, uiFramework: string, supportsLocalTts: bool,
                     requiresInternet: bool, tempDir: string, maxContextTokens: int := DefaultMaxContextTokens): (c: Config)
    ensures c.platform == platform && c.tempDir == tempDir && c.maxContextTokens == maxContextTokens
    ensures c.ttsEngine == ttsEngine && c.uiFramework == uiFramework
    ensures c.supportsLocalTts == supportsLocalTts && c.requiresInternet == requiresInternet
  {
    Config(platform, ttsEngine, uiFramework, supportsLocalTts, requiresInternet, tempDir, maxContextTokens)
  }

  /**
   * `create_for_platform`: no platform means the detected one; "windows"
   * and "android" have their own profiles and every other name gets the
   * Linux profile.
   */
  function CreateForPlatform(platformType: Option<string>, env: map<string, string>, hasJnius: bool, system: string): (c: Config)
    ensures platformType.None? ==> c.platform == DetectPlatform(env, hasJnius, system)
    ensures platformType.Some? ==> (c.platform == Windows <==> platformType.value == "windows")
    ensures platformType.Some? ==> (c.platform == Android <==> platformType.value == "android")
    ensures c.supportsLocalTts <==> c.platform == Windows
    ensures c.requiresInternet <==> !c.supportsLocalTts
    ensures c.ttsEngine == (if c.platform == Windows then "pyttsx3" else "gtts")
    ensures c.uiFramework == (if c.platform == Android then "kivy" else "pyqt6")
    ensures c.maxContextTokens == (if c.platform == Android then 20000 else 25000)
    ensures c.platform == Windows ==> c.tempDir == (if "TEMP" in env then env["TEMP"] else "/tmp")
    ensures c.platform == Android ==> c.tempDir == "/data/local/tmp"
    ensures c.platform == Linux ==> c.tempDir == "/tmp"
  {
    var name := if platformType.None? then PlatformName(DetectPlatform(env, hasJnius, system)) else platformType.value;
    if name == "windows" then
      NewConfig(Windows, "pyttsx3", "pyqt6", true, false, if "TEMP" in env then env["TEMP"] else "/tmp", 25000)
    else if name == "android" then
      NewConfig(Android, "gtts", "kivy", false, true, "/data/local/tmp", 20000)
    else
      NewConfig(Linux, "gtts", "pyqt6", false, true, "/tmp", 25000)
  }

  /** Naming a platform and building its profile gives that platform back. */
  lemma CreateForNamedPlatform(p: Platform, env: map<string, string>, hasJnius: bool, system: string)
    ensures CreateForPlatform(Some(PlatformName(p)), env, hasJnius, system).platform == p
  {
  }

  /** `IS_WINDOWS` and `IS_ANDROID` for the detected platform. */
  function PlatformFlags(env: map<string, string>, hasJnius: bool, system: string): (flags: (bool, bool))
    ensures !(flags.0 && flags.1)
    ensures flags.1 <==> AndroidMarkers(env, hasJnius)
  {
    var p := DetectPlatform(env, hasJnius, system);
    (p == Windows, p == Android)
  }

  /** A macOS system name maps to Windows, because "darwin" contains "win". */
  lemma DarwinIsWindows()
    ensures DetectPlatform(map[], false, "Darwin") == Windows
  {
    assert Lower("Darwin") == "darwin";
    assert OccursAt("darwin", "win", 3);
  }
}
