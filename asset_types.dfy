/**
 * The extension classifier: a file's extension is looked up in a fixed table
 * of 146 known Unity extensions, and the table position is mapped through
 * contiguous ranges to an asset kind. A `.cs` file is an editor tool when its
 * text imports the editor API; an unknown extension is sniffed for plain
 * ASCII text.
 */
module AssetTypes {
  import opened Strings
  import opened Collections

  /** The kinds an asset can have, in declaration order (their ordinals matter). */
  datatype AssetType =
    | None | Model3D | Animation | Assembly | Audio | Avatar | BuildReport | Curves
    | EditorTool | Font | IndependentHardwareVendor | Localization | Material | Plugin
    | Prefab | Preset | Scene | Script | ScriptableObject | Shader | Substance | Colors
    | Terrain | Texture | GUISkin | Video | VisualEffect | Text

  /** `(int)type`: the position of the kind in the enumeration. */
  function Ordinal(t: AssetType): nat
  {
    match t
    case None => 0 case Model3D => 1 case Animation => 2 case Assembly => 3
    case Audio => 4 case Avatar => 5 case BuildReport => 6 case Curves => 7
    case EditorTool => 8 case Font => 9 case IndependentHardwareVendor => 10
    case Localization => 11 case Material => 12 case Plugin => 13 case Prefab => 14
    case Preset => 15 case Scene => 16 case Script => 17 case ScriptableObject => 18
    case Shader => 19 case Substance => 20 case Colors => 21 case Terrain => 22
    case Texture => 23 case GUISkin => 24 case Video => 25 case VisualEffect => 26
    case Text => 27
  }

  /** Files of this many bytes or more are never sniffed for text. */
  const MAX_FILE_SIZE := 100000

  /** The number of characters sniffed at the start of a file of unknown extension. */
  const TEXT_SAMPLE := 100

  /** The marker that turns a script into an editor tool. */
  const EDITOR_IMPORT := "using UnityEditor;"

  /** 3D model, table positions 0-13. */
  const MODEL_3D_EXTENSIONS: seq<string> := [
    ".fbx", ".mb", ".ma", ".max", ".jas", ".dae", ".dxf", ".obj", ".c4d", ".blend",
    ".lxo", ".mesh", ".3ds", ".skp"
  ]

  /** Animation, table positions 14-23. */
  const ANIMATION_EXTENSIONS: seq<string> := [
    ".anim", ".controller", ".overrideController", ".blendtree", ".animset",
    ".playable", ".state", ".statemachine", ".signal", ".transition"
  ]

  /** Assembly, table positions 24-25. */
  const ASSEMBLY_EXTENSIONS: seq<string> := [
    ".asmdef", ".asmref"
  ]

  /** Audio, table positions 26-36. */
  const AUDIO_EXTENSIONS: seq<string> := [
    ".ogg", ".aif", ".aiff", ".flac", ".wav", ".mp3", ".mod", ".it", ".s3m", ".xm",
    ".mixer"
  ]

  /** Avatar, table positions 37-38. */
  const AVATAR_EXTENSIONS: seq<string> := [
    ".ht", ".mask"
  ]

  /** Build report, table position 39. */
  const BUILD_REPORT_EXTENSIONS: seq<string> := [
    ".buildreport"
  ]

  /** Curves, table positions 40-41. */
  const CURVES_EXTENSIONS: seq<string> := [
    ".curves", ".curvesNormalized"
  ]

  /** Font, table positions 42-46. */
  const FONT_EXTENSIONS: seq<string> := [
    ".fontsettings", ".ttf", ".dfont", ".otf", ".ttc"
  ]

  /** Independent hardware vendor, table positions 47-50. */
  const HARDWARE_VENDOR_EXTENSIONS: seq<string> := [
    ".astc", ".dds", ".ktx", ".pvr"
  ]

  /** Localization, table position 51. */
  const LOCALIZATION_EXTENSIONS: seq<string> := [
    ".po"
  ]

  /** Material, table positions 52-55. */
  const MATERIAL_EXTENSIONS: seq<string> := [
    ".mat", ".cubemap", ".physicMaterial", ".physicsMaterial2D"
  ]

  /** Plugin, table positions 56-80. */
  const PLUGIN_EXTENSIONS: seq<string> := [
    ".dll", ".winmd", ".so", ".jar", ".java", ".kt", ".aar", ".suprx", ".prx",
    ".rpl", ".cpp", ".cc", ".c", ".h", ".jslib", ".jspre", ".bc", ".a", ".m",
    ".mm", ".swift", ".xib", ".bundle", ".dylib", ".config"
  ]

  /** Prefab, table position 81. */
  const PREFAB_EXTENSIONS: seq<string> := [
    ".prefab"
  ]

  /** Preset, table position 82. */
  const PRESET_EXTENSIONS: seq<string> := [
    ".preset"
  ]

  /** Scene, table positions 83-84. */
  const SCENE_EXTENSIONS: seq<string> := [
    ".rsp", ".unity"
  ]

  /** Script, table position 85. */
  const SCRIPT_EXTENSIONS: seq<string> := [
    ".cs"
  ]

  /** Scriptable object, table position 86. */
  const SCRIPTABLE_OBJECT_EXTENSIONS: seq<string> := [
    ".asset"
  ]

  /** Shader, table positions 87-96. */
  const SHADER_EXTENSIONS: seq<string> := [
    ".compute", ".raytrace", ".cginc", ".cg", ".glslinc", ".hlsl", ".shader",
    ".shadervariants", ".shadergraph", ".shadersubgraph"
  ]

  /** Substance, table position 97. */
  const SUBSTANCE_EXTENSIONS: seq<string> := [
    ".sbsar"
  ]

  /** Colors, table positions 98-99. */
  const COLORS_EXTENSIONS: seq<string> := [
    ".colors", ".gradients"
  ]

  /** Terrain, table positions 100-103. */
  const TERRAIN_EXTENSIONS: seq<string> := [
    ".brush", ".terrainlayer", ".spm", ".st"
  ]

  /** Texture, table positions 104-122. */
  const TEXTURE_EXTENSIONS: seq<string> := [
    ".jpg", ".jpeg", ".tif", ".tiff", ".tga", ".gif", ".png", ".psd", ".bmp",
    ".iff", ".pict", ".pic", ".pct", ".exr", ".hdr", ".renderTexture",
    ".texture2D", ".spriteatlas", ".webCamTexture"
  ]

  /** GUI skin, table position 123. */
  const GUI_SKIN_EXTENSIONS: seq<string> := [
    ".guiskin"
  ]

  /** Video, table positions 124-135. */
  const VIDEO_EXTENSIONS: seq<string> := [
    ".avi", ".asf", ".wmv", ".mov", ".dv", ".mp4", ".m4v", ".mpg", ".mpeg", ".ogv",
    ".vp8", ".webm"
  ]

  /** Visual effects, table positions 136-145. */
  const VISUAL_EFFECTS_EXTENSIONS: seq<string> := [
    ".flare", ".giparams", ".vfx", ".vfxoperator", ".vfxblock", ".particleCurves",
    ".particleCurvesSigned", ".particleDoubleCurves",
    ".particleDoubleCurvesSigned", ".lighting"
  ]

  /** The whole table: the groups above, back to back, in this order. */
  const UNITY_EXTENSIONS: seq<string> :=
    MODEL_3D_EXTENSIONS +
    ANIMATION_EXTENSIONS +
    ASSEMBLY_EXTENSIONS +
    AUDIO_EXTENSIONS +
    AVATAR_EXTENSIONS +
    BUILD_REPORT_EXTENSIONS +
    CURVES_EXTENSIONS +
    FONT_EXTENSIONS +
    HARDWARE_VENDOR_EXTENSIONS +
    LOCALIZATION_EXTENSIONS +
    MATERIAL_EXTENSIONS +
    PLUGIN_EXTENSIONS +
    PREFAB_EXTENSIONS +
    PRESET_EXTENSIONS +
    SCENE_EXTENSIONS +
    SCRIPT_EXTENSIONS +
    SCRIPTABLE_OBJECT_EXTENSIONS +
    SHADER_EXTENSIONS +
    SUBSTANCE_EXTENSIONS +
    COLORS_EXTENSIONS +
    TERRAIN_EXTENSIONS +
    TEXTURE_EXTENSIONS +
    GUI_SKIN_EXTENSIONS +
    VIDEO_EXTENSIONS +
    VISUAL_EFFECTS_EXTENSIONS

  /** Table position of `.cs`, the only position whose kind depends on the file's text. */
  const SCRIPT_INDEX := 85

  /** Table position of `.fontsettings`, the only font extension scanned as YAML. */
  const FONT_SETTINGS_INDEX := 42

  /** Ordinals of the kinds whose files are scanned as YAML for `guid:` references. */
  const YAML_INDEXES: seq<int> := [2, 5, 7, 9, 12, 14, 15, 18, 21, 22, 24]

  /** The range cascade of the classifier, for a table position or the miss value 146. */
  function KindOfIndex(index: int): AssetType
  {
    if 0 <= index <= 13 then Model3D
    else if 14 <= index <= 23 then Animation
    else if 24 <= index <= 25 then Assembly
    else if 26 <= index <= 36 then Audio
    else if 37 <= index <= 38 then Avatar
    else if index == 39 then BuildReport
    else if 40 <= index <= 41 then Curves
    else if 42 <= index <= 46 then Font
    else if 47 <= index <= 50 then IndependentHardwareVendor
    else if index == 51 then Localization
    else if 52 <= index <= 55 then Material
    else if 56 <= index <= 80 then Plugin
    else if index == 81 then Prefab
    else if index == 82 then Preset
    else if 83 <= index <= 84 then Scene
    else if index == 85 then Script
    else if index == 86 then ScriptableObject
    else if 87 <= index <= 96 then Shader
    else if index == 97 then Substance
    else if 98 <= index <= 99 then Colors
    else if 100 <= index <= 103 then Terrain
    else if 104 <= index <= 122 then Texture
    else if index == 123 then GUISkin
    else if 124 <= index <= 135 then Video
    else if 136 <= index <= 145 then VisualEffect
    else None
  }

  /** `new List<string>(table).IndexOf(x)`: the first exact match, or -1. */
  function FirstExact(table: seq<string>, x: string): (r: int)
    ensures -1 <= r < |table|
    ensures r >= 0 ==> table[r] == x
    ensures forall i :: 0 <= i < |table| && (r < 0 || i < r) ==> table[i] != x
  {
    if table == [] then -1
    else if table[0] == x then 0
    else
      var r := FirstExact(table[1..], x);
      if r < 0 then -1 else r + 1
  }

  /**
   * The fallback loop: the first position whose entry equals `x` once both
   * are lower-cased, or `|table|` when there is none.
   */
  function FirstIgnoringCase(table: seq<string>, x: string): (r: nat)
    ensures r <= |table|
    ensures r < |table| ==> ToLower(table[r]) == ToLower(x)
    ensures forall i :: 0 <= i < r ==> ToLower(table[i]) != ToLower(x)
  {
    if table == [] then 0
    else if ToLower(table[0]) == ToLower(x) then 0
    else FirstIgnoringCase(table[1..], x) + 1
  }

  /** The table position the classifier settles on: exact match first, then ignoring case. */
  function LookupIndex(ext: string): int
  {
    var exact := FirstExact(UNITY_EXTENSIONS, ext);
    if exact == -1 then FirstIgnoringCase(UNITY_EXTENSIONS, ext) else exact
  }

  function Min(a: int, b: int): int
  {
    if a <= b then a else b
  }

  /**
   * `IsTextFile`: a file under the size ceiling whose first
   * min(100, size) characters are all below 128. Asking for more characters
   * than the decoded text holds (a multi-byte file) makes `ToCharArray` throw.
   */
  function IsTextFile(size: nat, text: string): (r: Result<bool>)
    ensures r == Throws <==> size < MAX_FILE_SIZE && |text| < Min(TEXT_SAMPLE, size)
    ensures r == Ok(true) <==>
      size < MAX_FILE_SIZE && Min(TEXT_SAMPLE, size) <= |text|
      && forall i :: 0 <= i < Min(TEXT_SAMPLE, size) ==> text[i] as int < 128
  {
    if size >= MAX_FILE_SIZE then Ok(false)
    else
      var n := Min(TEXT_SAMPLE, size);
      if |text| < n then Throws
      else Ok(forall i :: 0 <= i < n ==> text[i] as int < 128)
  }

  /** Characters that end the search for an extension's dot. */
  const PATH_SEPARATORS: set<char> := {'/', '\\', ':'}

  /**
   * `FileInfo.Extension`: the final `.` and what follows it, provided no
   * directory or volume separator comes after that dot and the dot is not the
   * last character; the empty string otherwise.
   */
  function Extension(path: string): (r: string)
    ensures |r| <= |path| && r == path[|path| - |r|..]
    ensures r != [] ==> |r| >= 2 && r[0] == '.'
    ensures forall i :: 0 < i < |r| ==> r[i] != '.' && r[i] !in PATH_SEPARATORS
  {
    if |path| < 2 then []
    else
      var c := path[|path| - 1];
      if c == '.' || c in PATH_SEPARATORS then []
      else if path[|path| - 2] == '.' then path[|path| - 2..]
      else
        var r := Extension(path[..|path| - 1]);
        if r == [] then [] else r + [c]
  }

  /**
   * `GetAssetType` for a file with extension `ext` (as `FileInfo.Extension`
   * gives it, dot included), `size` bytes and decoded text `text`.
   */
  function GetAssetType(ext: string, size: nat, text: string): Result<AssetType>
  {
    var index := LookupIndex(ext);
    if index == SCRIPT_INDEX then
      Ok(if Contains(text, EDITOR_IMPORT) then EditorTool else Script)
    else if KindOfIndex(index) != None then Ok(KindOfIndex(index))
    else
      match IsTextFile(size, text)
      case Ok(isText) => Ok(if isText then Text else None)
      case Throws => Throws
  }

  /**
   * A decision tree over a few characters that recovers the table position of
   * a lower-cased table entry. It serves only to prove that no two entries
   * coincide once lower-cased.
   */
  function ProbeIndex(x: string): int
  {
    if |x| == 2 then (if x[1] == 'a' then 73 else if x[1] == 'c' then 68 else if x[1] == 'h' then 69 else if x[1] == 'm' then 74 else -1)
    else if |x| == 3 then (if x[1] == 'b' then 72 else if x[1] == 'c' then (if x[2] == 'c' then 67 else if x[2] == 'g' then 90 else if x[2] == 's' then 85 else -1) else if x[1] == 'd' then 128 else if x[1] == 'h' then 37 else if x[1] == 'i' then 33 else if x[1] == 'k' then 61 else if x[1] == 'm' then (if x[2] == 'a' then 2 else if x[2] == 'b' then 1 else if x[2] == 'm' then 75 else -1) else if x[1] == 'p' then 51 else if x[1] == 's' then (if x[2] == 'o' then 58 else if x[2] == 't' then 103 else -1) else if x[1] == 'x' then 35 else -1)
    else if |x| == 4 then (if x[1] == '3' then 12 else if x[1] == 'a' then (if x[2] == 'a' then 62 else if x[2] == 'i' then 27 else if x[2] == 's' then 125 else if x[2] == 'v' then 124 else -1) else if x[1] == 'b' then 112 else if x[1] == 'c' then (if x[2] == '4' then 8 else if x[2] == 'p' then 66 else -1) else if x[1] == 'd' then (if x[2] == 'a' then 5 else if x[2] == 'd' then 48 else if x[2] == 'l' then 56 else if x[2] == 'x' then 6 else -1) else if x[1] == 'e' then 117 else if x[1] == 'f' then 0 else if x[1] == 'g' then 109 else if x[1] == 'h' then 118 else if x[1] == 'i' then 113 else if x[1] == 'j' then (if x[3] == 'g' then 104 else if x[3] == 'r' then 59 else if x[3] == 's' then 4 else -1) else if x[1] == 'k' then 49 else if x[1] == 'l' then 10 else if x[1] == 'm' then (if x[3] == '3' then 31 else if x[3] == '4' then 129 else if x[3] == 'd' then 32 else if x[3] == 'g' then 131 else if x[3] == 't' then 52 else if x[3] == 'v' then (if x[2] == '4' then 130 else if x[2] == 'o' then 127 else -1) else if x[3] == 'x' then 3 else -1) else if x[1] == 'o' then (if x[3] == 'f' then 45 else if x[3] == 'g' then 26 else if x[3] == 'j' then 7 else if x[3] == 'v' then 133 else -1) else if x[1] == 'p' then (if x[2] == 'c' then 116 else if x[2] == 'i' then 115 else if x[2] == 'n' then 110 else if x[2] == 'r' then 64 else if x[2] == 's' then 111 else if x[2] == 'v' then 50 else -1) else if x[1] == 'r' then (if x[2] == 'p' then 65 else if x[2] == 's' then 83 else -1) else if x[1] == 's' then (if x[2] == '3' then 34 else if x[2] == 'k' then 13 else if x[2] == 'p' then 102 else -1) else if x[1] == 't' then (if x[2] == 'g' then 108 else if x[2] == 'i' then 106 else if x[2] == 't' then (if x[3] == 'c' then 46 else if x[3] == 'f' then 43 else -1) else -1) else if x[1] == 'v' then (if x[2] == 'f' then 138 else if x[2] == 'p' then 134 else -1) else if x[1] == 'w' then (if x[2] == 'a' then 30 else if x[2] == 'm' then 126 else -1) else if x[1] == 'x' then 77 else -1)
    else if |x| == 5 then (if x[4] == 'a' then 60 else if x[4] == 'c' then (if x[1] == 'a' then 47 else if x[1] == 'f' then 29 else -1) else if x[4] == 'f' then (if x[1] == 'a' then 28 else if x[1] == 't' then 107 else -1) else if x[4] == 'g' then (if x[1] == 'j' then 105 else if x[1] == 'm' then 132 else -1) else if x[4] == 'h' then 11 else if x[4] == 'k' then 38 else if x[4] == 'l' then 92 else if x[4] == 'm' then (if x[1] == 'a' then 14 else if x[1] == 'w' then 135 else -1) else if x[4] == 't' then 114 else -1)
    else if |x| == 6 then (if x[2] == 'b' then 97 else if x[2] == 'f' then 44 else if x[2] == 'g' then 89 else if x[2] == 'i' then (if x[1] == 'm' then 36 else if x[1] == 'w' then 57 else -1) else if x[2] == 'l' then (if x[1] == 'b' then 9 else if x[1] == 'f' then 136 else -1) else if x[2] == 'n' then 84 else if x[2] == 'r' then 100 else if x[2] == 's' then (if x[3] == 'l' then 70 else if x[3] == 'p' then 71 else if x[3] == 's' then 86 else -1) else if x[2] == 't' then 20 else if x[2] == 'u' then 63 else if x[2] == 'w' then 76 else if x[2] == 'y' then 79 else -1)
    else if |x| == 7 then (if x[2] == 'h' then 93 else if x[2] == 'i' then 22 else if x[2] == 'o' then (if x[3] == 'l' then 98 else if x[3] == 'n' then 80 else -1) else if x[2] == 'r' then (if x[4] == 'f' then 81 else if x[4] == 's' then 82 else -1) else if x[2] == 's' then (if x[4] == 'd' then 24 else if x[4] == 'r' then 25 else -1) else if x[2] == 'u' then (if x[1] == 'b' then 78 else if x[1] == 'c' then 40 else -1) else -1)
    else if |x| == 8 then (if x[4] == 'e' then 53 else if x[4] == 'l' then 91 else if x[4] == 'm' then 18 else if x[4] == 'p' then 87 else if x[4] == 's' then 123 else -1)
    else if |x| == 9 then (if x[1] == 'g' then 137 else if x[1] == 'l' then 145 else if x[1] == 'p' then 19 else if x[1] == 'r' then 88 else if x[1] == 'v' then 140 else -1)
    else if |x| == 10 then (if x[1] == 'b' then 17 else if x[1] == 'g' then 99 else if x[1] == 't' then 120 else -1)
    else if |x| == 11 then (if x[1] == 'c' then 15 else if x[1] == 't' then 23 else -1)
    else if |x| == 12 then (if x[2] == 'f' then 139 else if x[2] == 'h' then 95 else if x[2] == 'p' then 121 else if x[2] == 'u' then 39 else -1)
    else if |x| == 13 then (if x[1] == 'f' then 42 else if x[1] == 's' then 21 else if x[1] == 't' then 101 else -1)
    else if |x| == 14 then (if x[1] == 'r' then 119 else if x[1] == 'w' then 122 else -1)
    else if |x| == 15 then (if x[7] == 'l' then 141 else if x[7] == 'm' then 54 else if x[7] == 's' then 96 else if x[7] == 'v' then 94 else -1)
    else if |x| == 17 then 41
    else if |x| == 18 then 55
    else if |x| == 19 then 16
    else if |x| == 21 then (if x[9] == 'c' then 142 else if x[9] == 'd' then 143 else -1)
    else if |x| == 27 then 144
    else -1
  }

  lemma ProbeRecoversAt0()
    ensures ProbeIndex(ToLower(UNITY_EXTENSIONS[0])) == 0
  {
  }

  lemma ProbeRecoversAt1()
    ensures ProbeIndex(ToLower(UNITY_EXTENSIONS[1])) == 1
  {
  }

  lemma ProbeRecoversAt2()
    ensures ProbeIndex(ToLower(UNITY_EXTENSIONS[2])) == 2
  {
  }

  lemma ProbeRecoversAt3()
    ensures ProbeIndex(ToLower(UNITY_EXTENSIONS[3])) == 3
  {
  }

  lemma ProbeRecoversAt4()
    ensures ProbeIndex(ToLower(UNITY_EXTENSIONS[4])) == 4
  {
  }

  lemma ProbeRecoversAt5()
    ensures ProbeIndex(ToLower(UNITY_EXTENSIONS[5])) == 5
  {
  }

  lemma ProbeRecoversAt6()
    ensures ProbeIndex(ToLower(UNITY_EXTENSIONS[6])) == 6
  {
  }

  lemma ProbeRecovers0To6(i: int)
    requires 0 <= i < 7
    ensures ProbeIndex(ToLower(UNITY_EXTENSIONS[i])) == i
  {
    if i == 0 { ProbeRecoversAt0(); } else if i == 1 { ProbeRecoversAt1(); } else if i == 2 { ProbeRecoversAt2(); } else if i == 3 { ProbeRecoversAt3(); } else if i == 4 { ProbeRecoversAt4(); } else if i == 5 { ProbeRecoversAt5(); } else { ProbeRecoversAt6(); }
  }

  lemma ProbeRecoversAt7()
    ensures ProbeIndex(ToLower(UNITY_EXTENSIONS[7])) == 7
  {
  }

  lemma ProbeRecoversAt8()
    ensures ProbeIndex(ToLower(UNITY_EXTENSIONS[8])) == 8
  {
  }

  lemma ProbeRecoversAt9()
    ensures ProbeIndex(ToLower(UNITY_EXTENSIONS[9])) == 9
  {
  }

  lemma ProbeRecoversAt10()
    ensures ProbeIndex(ToLower(UNITY_EXTENSIONS[10])) == 10
  {
  }

  lemma ProbeRecoversAt11()
    ensures ProbeIndex(ToLower(UNITY_EXTENSIONS[11])) == 11
  {
  }

  lemma ProbeRecoversAt12()
    ensures ProbeIndex(ToLower(UNITY_EXTENSIONS[12])) == 12
  {
  }

  lemma ProbeRecoversAt13()
    ensures ProbeIndex(ToLower(UNITY_EXTENSIONS[13])) == 13
  {
  }

  lemma ProbeRecovers7To13(i: int)
    requires 7 <= i < 14
    ensures ProbeIndex(ToLower(UNITY_EXTENSIONS[i])) == i
  {
    if i == 7 { ProbeRecoversAt7(); } else if i == 8 { ProbeRecoversAt8(); } else if i == 9 { ProbeRecoversAt9(); } else if i == 10 { ProbeRecoversAt10(); } else if i == 11 { ProbeRecoversAt11(); } else if i == 12 { ProbeRecoversAt12(); } else { ProbeRecoversAt13(); }
  }

  lemma ProbeRecoversAt14()
    ensures ProbeIndex(ToLower(UNITY_EXTENSIONS[14])) == 14
  {
  }

  lemma ProbeRecoversAt15()
    ensures ProbeIndex(ToLower(UNITY_EXTENSIONS[15])) == 15
  {
  }

  lemma ProbeRecoversAt16()
    ensures ProbeIndex(ToLower(UNITY_EXTENSIONS[16])) == 16
  {
  }

  lemma ProbeRecovers14To16(i: int)
    requires 14 <= i < 17
    ensures ProbeIndex(ToLower(UNITY_EXTENSIONS[i])) == i
  {
    if i == 14 { ProbeRecoversAt14(); } else if i == 15 { ProbeRecoversAt15(); } else { ProbeRecoversAt16(); }
  }

  lemma ProbeRecoversAt17()
    ensures ProbeIndex(ToLower(UNITY_EXTENSIONS[17])) == 17
  {
  }

  lemma ProbeRecoversAt18()
    ensures ProbeIndex(ToLower(UNITY_EXTENSIONS[18])) == 18
  {
  }

  lemma ProbeRecoversAt19()
    ensures ProbeIndex(ToLower(UNITY_EXTENSIONS[19])) == 19
  {
  }

  lemma ProbeRecoversAt20()
    ensures ProbeIndex(ToLower(UNITY_EXTENSIONS[20])) == 20
  {
  }

  lemma ProbeRecovers17To20(i: int)
    requires 17 <= i < 21
    ensures ProbeIndex(ToLower(UNITY_EXTENSIONS[i])) == i
  {
    if i == 17 { ProbeRecoversAt17(); } else if i == 18 { ProbeRecoversAt18(); } else if i == 19 { ProbeRecoversAt19(); } else { ProbeRecoversAt20(); }
  }

  lemma ProbeRecoversAt21()
    ensures ProbeIndex(ToLower(UNITY_EXTENSIONS[21])) == 21
  {
  }

  lemma ProbeRecoversAt22()
    ensures ProbeIndex(ToLower(UNITY_EXTENSIONS[22])) == 22
  {
  }

  lemma ProbeRecoversAt23()
    ensures ProbeIndex(ToLower(UNITY_EXTENSIONS[23])) == 23
  {
  }

  lemma ProbeRecovers21To23(i: int)
    requires 21 <= i < 24
    ensures ProbeIndex(ToLower(UNITY_EXTENSIONS[i])) == i
  {
    if i == 21 { ProbeRecoversAt21(); } else if i == 22 { ProbeRecoversAt22(); } else { ProbeRecoversAt23(); }
  }

  lemma ProbeRecoversAt24()
    ensures ProbeIndex(ToLower(UNITY_EXTENSIONS[24])) == 24
  {
  }

  lemma ProbeRecoversAt25()
    ensures ProbeIndex(ToLower(UNITY_EXTENSIONS[25])) == 25
  {
  }

  lemma ProbeRecovers24To25(i: int)
    requires 24 <= i < 26
    ensures ProbeIndex(ToLower(UNITY_EXTENSIONS[i])) == i
  {
    if i == 24 { ProbeRecoversAt24(); } else { ProbeRecoversAt25(); }
  }

  lemma ProbeRecoversAt26()
    ensures ProbeIndex(ToLower(UNITY_EXTENSIONS[26])) == 26
  {
  }

  lemma ProbeRecoversAt27()
    ensures ProbeIndex(ToLower(UNITY_EXTENSIONS[27])) == 27
  {
  }

  lemma ProbeRecoversAt28()
    ensures ProbeIndex(ToLower(UNITY_EXTENSIONS[28])) == 28
  {
  }

  lemma ProbeRecovers26To28(i: int)
    requires 26 <= i < 29
    ensures ProbeIndex(ToLower(UNITY_EXTENSIONS[i])) == i
  {
    if i == 26 { ProbeRecoversAt26(); } else if i == 27 { ProbeRecoversAt27(); } else { ProbeRecoversAt28(); }
  }

  lemma ProbeRecoversAt29()
    ensures ProbeIndex(ToLower(UNITY_EXTENSIONS[29])) == 29
  {
  }

  lemma ProbeRecoversAt30()
    ensures ProbeIndex(ToLower(UNITY_EXTENSIONS[30])) == 30
  {
  }

  lemma ProbeRecoversAt31()
    ensures ProbeIndex(ToLower(UNITY_EXTENSIONS[31])) == 31
  {
  }

  lemma ProbeRecoversAt32()
    ensures ProbeIndex(ToLower(UNITY_EXTENSIONS[32])) == 32
  {
  }

  lemma ProbeRecovers29To32(i: int)
    requires 29 <= i < 33
    ensures ProbeIndex(ToLower(UNITY_EXTENSIONS[i])) == i
  {
    if i == 29 { ProbeRecoversAt29(); } else if i == 30 { ProbeRecoversAt30(); } else if i == 31 { ProbeRecoversAt31(); } else { ProbeRecoversAt32(); }
  }

  lemma ProbeRecoversAt33()
    ensures ProbeIndex(ToLower(UNITY_EXTENSIONS[33])) == 33
  {
  }

  lemma ProbeRecoversAt34()
    ensures ProbeIndex(ToLower(UNITY_EXTENSIONS[34])) == 34
  {
  }

  lemma ProbeRecoversAt35()
    ensures ProbeIndex(ToLower(UNITY_EXTENSIONS[35])) == 35
  {
  }

  lemma ProbeRecoversAt36()
    ensures ProbeIndex(ToLower(UNITY_EXTENSIONS[36])) == 36
  {
  }

  lemma ProbeRecovers33To36(i: int)
    requires 33 <= i < 37
    ensures ProbeIndex(ToLower(UNITY_EXTENSIONS[i])) == i
  {
    if i == 33 { ProbeRecoversAt33(); } else if i == 34 { ProbeRecoversAt34(); } else if i == 35 { ProbeRecoversAt35(); } else { ProbeRecoversAt36(); }
  }

  lemma ProbeRecoversAt37()
    ensures ProbeIndex(ToLower(UNITY_EXTENSIONS[37])) == 37
  {
  }

  lemma ProbeRecoversAt38()
    ensures ProbeIndex(ToLower(UNITY_EXTENSIONS[38])) == 38
  {
  }

  lemma ProbeRecovers37To38(i: int)
    requires 37 <= i < 39
    ensures ProbeIndex(ToLower(UNITY_EXTENSIONS[i])) == i
  {
    if i == 37 { ProbeRecoversAt37(); } else { ProbeRecoversAt38(); }
  }

  lemma ProbeRecovers39(i: int)
    requires i == 39
    ensures ProbeIndex(ToLower(UNITY_EXTENSIONS[i])) == i
  {
    {}
  }

  lemma ProbeRecoversAt40()
    ensures ProbeIndex(ToLower(UNITY_EXTENSIONS[40])) == 40
  {
  }

  lemma ProbeRecoversAt41()
    ensures ProbeIndex(ToLower(UNITY_EXTENSIONS[41])) == 41
  {
  }

  lemma ProbeRecovers40To41(i: int)
    requires 40 <= i < 42
    ensures ProbeIndex(ToLower(UNITY_EXTENSIONS[i])) == i
  {
    if i == 40 { ProbeRecoversAt40(); } else { ProbeRecoversAt41(); }
  }

  lemma ProbeRecoversAt42()
    ensures ProbeIndex(ToLower(UNITY_EXTENSIONS[42])) == 42
  {
  }

  lemma ProbeRecoversAt43()
    ensures ProbeIndex(ToLower(UNITY_EXTENSIONS[43])) == 43
  {
  }

  lemma ProbeRecoversAt44()
    ensures ProbeIndex(ToLower(UNITY_EXTENSIONS[44])) == 44
  {
  }

  lemma ProbeRecoversAt45()
    ensures ProbeIndex(ToLower(UNITY_EXTENSIONS[45])) == 45
  {
  }

  lemma ProbeRecoversAt46()
    ensures ProbeIndex(ToLower(UNITY_EXTENSIONS[46])) == 46
  {
  }

  lemma ProbeRecovers42To46(i: int)
    requires 42 <= i < 47
    ensures ProbeIndex(ToLower(UNITY_EXTENSIONS[i])) == i
  {
    if i == 42 { ProbeRecoversAt42(); } else if i == 43 { ProbeRecoversAt43(); } else if i == 44 { ProbeRecoversAt44(); } else if i == 45 { ProbeRecoversAt45(); } else { ProbeRecoversAt46(); }
  }

  lemma ProbeRecoversAt47()
    ensures ProbeIndex(ToLower(UNITY_EXTENSIONS[47])) == 47
  {
  }

  lemma ProbeRecoversAt48()
    ensures ProbeIndex(ToLower(UNITY_EXTENSIONS[48])) == 48
  {
  }

  lemma ProbeRecoversAt49()
    ensures ProbeIndex(ToLower(UNITY_EXTENSIONS[49])) == 49
  {
  }

  lemma ProbeRecoversAt50()
    ensures ProbeIndex(ToLower(UNITY_EXTENSIONS[50])) == 50
  {
  }

  lemma ProbeRecovers47To50(i: int)
    requires 47 <= i < 51
    ensures ProbeIndex(ToLower(UNITY_EXTENSIONS[i])) == i
  {
    if i == 47 { ProbeRecoversAt47(); } else if i == 48 { ProbeRecoversAt48(); } else if i == 49 { ProbeRecoversAt49(); } else { ProbeRecoversAt50(); }
  }

  lemma ProbeRecovers51(i: int)
    requires i == 51
    ensures ProbeIndex(ToLower(UNITY_EXTENSIONS[i])) == i
  {
    {}
  }

  lemma ProbeRecoversAt52()
    ensures ProbeIndex(ToLower(UNITY_EXTENSIONS[52])) == 52
  {
  }

  lemma ProbeRecoversAt53()
    ensures ProbeIndex(ToLower(UNITY_EXTENSIONS[53])) == 53
  {
  }

  lemma ProbeRecoversAt54()
    ensures ProbeIndex(ToLower(UNITY_EXTENSIONS[54])) == 54
  {
  }

  lemma ProbeRecoversAt55()
    ensures ProbeIndex(ToLower(UNITY_EXTENSIONS[55])) == 55
  {
  }

  lemma ProbeRecovers52To55(i: int)
    requires 52 <= i < 56
    ensures ProbeIndex(ToLower(UNITY_EXTENSIONS[i])) == i
  {
    if i == 52 { ProbeRecoversAt52(); } else if i == 53 { ProbeRecoversAt53(); } else if i == 54 { ProbeRecoversAt54(); } else { ProbeRecoversAt55(); }
  }

  lemma ProbeRecoversAt56()
    ensures ProbeIndex(ToLower(UNITY_EXTENSIONS[56])) == 56
  {
  }

  lemma ProbeRecoversAt57()
    ensures ProbeIndex(ToLower(UNITY_EXTENSIONS[57])) == 57
  {
  }

  lemma ProbeRecoversAt58()
    ensures ProbeIndex(ToLower(UNITY_EXTENSIONS[58])) == 58
  {
  }

  lemma ProbeRecovers56To58(i: int)
    requires 56 <= i < 59
    ensures ProbeIndex(ToLower(UNITY_EXTENSIONS[i])) == i
  {
    if i == 56 { ProbeRecoversAt56(); } else if i == 57 { ProbeRecoversAt57(); } else { ProbeRecoversAt58(); }
  }

  lemma ProbeRecoversAt59()
    ensures ProbeIndex(ToLower(UNITY_EXTENSIONS[59])) == 59
  {
  }

  lemma ProbeRecoversAt60()
    ensures ProbeIndex(ToLower(UNITY_EXTENSIONS[60])) == 60
  {
  }

  lemma ProbeRecoversAt61()
    ensures ProbeIndex(ToLower(UNITY_EXTENSIONS[61])) == 61
  {
  }

  lemma ProbeRecoversAt62()
    ensures ProbeIndex(ToLower(UNITY_EXTENSIONS[62])) == 62
  {
  }

  lemma ProbeRecovers59To62(i: int)
    requires 59 <= i < 63
    ensures ProbeIndex(ToLower(UNITY_EXTENSIONS[i])) == i
  {
    if i == 59 { ProbeRecoversAt59(); } else if i == 60 { ProbeRecoversAt60(); } else if i == 61 { ProbeRecoversAt61(); } else { ProbeRecoversAt62(); }
  }

  lemma ProbeRecoversAt63()
    ensures ProbeIndex(ToLower(UNITY_EXTENSIONS[63])) == 63
  {
  }

  lemma ProbeRecoversAt64()
    ensures ProbeIndex(ToLower(UNITY_EXTENSIONS[64])) == 64
  {
  }

  lemma ProbeRecoversAt65()
    ensures ProbeIndex(ToLower(UNITY_EXTENSIONS[65])) == 65
  {
  }

  lemma ProbeRecoversAt66()
    ensures ProbeIndex(ToLower(UNITY_EXTENSIONS[66])) == 66
  {
  }

  lemma ProbeRecoversAt67()
    ensures ProbeIndex(ToLower(UNITY_EXTENSIONS[67])) == 67
  {
  }

  lemma ProbeRecoversAt68()
    ensures ProbeIndex(ToLower(UNITY_EXTENSIONS[68])) == 68
  {
  }

  lemma ProbeRecoversAt69()
    ensures ProbeIndex(ToLower(UNITY_EXTENSIONS[69])) == 69
  {
  }

  lemma ProbeRecovers63To69(i: int)
    requires 63 <= i < 70
    ensures ProbeIndex(ToLower(UNITY_EXTENSIONS[i])) == i
  {
    if i == 63 { ProbeRecoversAt63(); } else if i == 64 { ProbeRecoversAt64(); } else if i == 65 { ProbeRecoversAt65(); } else if i == 66 { ProbeRecoversAt66(); } else if i == 67 { ProbeRecoversAt67(); } else if i == 68 { ProbeRecoversAt68(); } else { ProbeRecoversAt69(); }
  }

  lemma ProbeRecoversAt70()
    ensures ProbeIndex(ToLower(UNITY_EXTENSIONS[70])) == 70
  {
  }

  lemma ProbeRecoversAt71()
    ensures ProbeIndex(ToLower(UNITY_EXTENSIONS[71])) == 71
  {
  }

  lemma ProbeRecoversAt72()
    ensures ProbeIndex(ToLower(UNITY_EXTENSIONS[72])) == 72
  {
  }

  lemma ProbeRecovers70To72(i: int)
    requires 70 <= i < 73
    ensures ProbeIndex(ToLower(UNITY_EXTENSIONS[i])) == i
  {
    if i == 70 { ProbeRecoversAt70(); } else if i == 71 { ProbeRecoversAt71(); } else { ProbeRecoversAt72(); }
  }

  lemma ProbeRecoversAt73()
    ensures ProbeIndex(ToLower(UNITY_EXTENSIONS[73])) == 73
  {
  }

  lemma ProbeRecoversAt74()
    ensures ProbeIndex(ToLower(UNITY_EXTENSIONS[74])) == 74
  {
  }

  lemma ProbeRecoversAt75()
    ensures ProbeIndex(ToLower(UNITY_EXTENSIONS[75])) == 75
  {
  }

  lemma ProbeRecoversAt76()
    ensures ProbeIndex(ToLower(UNITY_EXTENSIONS[76])) == 76
  {
  }

  lemma ProbeRecovers73To76(i: int)
    requires 73 <= i < 77
    ensures ProbeIndex(ToLower(UNITY_EXTENSIONS[i])) == i
  {
    if i == 73 { ProbeRecoversAt73(); } else if i == 74 { ProbeRecoversAt74(); } else if i == 75 { ProbeRecoversAt75(); } else { ProbeRecoversAt76(); }
  }

  lemma ProbeRecoversAt77()
    ensures ProbeIndex(ToLower(UNITY_EXTENSIONS[77])) == 77
  {
  }

  lemma ProbeRecoversAt78()
    ensures ProbeIndex(ToLower(UNITY_EXTENSIONS[78])) == 78
  {
  }

  lemma ProbeRecoversAt79()
    ensures ProbeIndex(ToLower(UNITY_EXTENSIONS[79])) == 79
  {
  }

  lemma ProbeRecoversAt80()
    ensures ProbeIndex(ToLower(UNITY_EXTENSIONS[80])) == 80
  {
  }

  lemma ProbeRecovers77To80(i: int)
    requires 77 <= i < 81
    ensures ProbeIndex(ToLower(UNITY_EXTENSIONS[i])) == i
  {
    if i == 77 { ProbeRecoversAt77(); } else if i == 78 { ProbeRecoversAt78(); } else if i == 79 { ProbeRecoversAt79(); } else { ProbeRecoversAt80(); }
  }

  lemma ProbeRecovers81(i: int)
    requires i == 81
    ensures ProbeIndex(ToLower(UNITY_EXTENSIONS[i])) == i
  {
    {}
  }

  lemma ProbeRecovers82(i: int)
    requires i == 82
    ensures ProbeIndex(ToLower(UNITY_EXTENSIONS[i])) == i
  {
    {}
  }

  lemma ProbeRecoversAt83()
    ensures ProbeIndex(ToLower(UNITY_EXTENSIONS[83])) == 83
  {
  }

  lemma ProbeRecoversAt84()
    ensures ProbeIndex(ToLower(UNITY_EXTENSIONS[84])) == 84
  {
  }

  lemma ProbeRecovers83To84(i: int)
    requires 83 <= i < 85
    ensures ProbeIndex(ToLower(UNITY_EXTENSIONS[i])) == i
  {
    if i == 83 { ProbeRecoversAt83(); } else { ProbeRecoversAt84(); }
  }

  lemma ProbeRecovers85(i: int)
    requires i == 85
    ensures ProbeIndex(ToLower(UNITY_EXTENSIONS[i])) == i
  {
    {}
  }

  lemma ProbeRecovers86(i: int)
    requires i == 86
    ensures ProbeIndex(ToLower(UNITY_EXTENSIONS[i])) == i
  {
    {}
  }

  lemma ProbeRecoversAt87()
    ensures ProbeIndex(ToLower(UNITY_EXTENSIONS[87])) == 87
  {
  }

  lemma ProbeRecoversAt88()
    ensures ProbeIndex(ToLower(UNITY_EXTENSIONS[88])) == 88
  {
  }

  lemma ProbeRecoversAt89()
    ensures ProbeIndex(ToLower(UNITY_EXTENSIONS[89])) == 89
  {
  }

  lemma ProbeRecoversAt90()
    ensures ProbeIndex(ToLower(UNITY_EXTENSIONS[90])) == 90
  {
  }

  lemma ProbeRecoversAt91()
    ensures ProbeIndex(ToLower(UNITY_EXTENSIONS[91])) == 91
  {
  }

  lemma ProbeRecoversAt92()
    ensures ProbeIndex(ToLower(UNITY_EXTENSIONS[92])) == 92
  {
  }

  lemma ProbeRecoversAt93()
    ensures ProbeIndex(ToLower(UNITY_EXTENSIONS[93])) == 93
  {
  }

  lemma ProbeRecovers87To93(i: int)
    requires 87 <= i < 94
    ensures ProbeIndex(ToLower(UNITY_EXTENSIONS[i])) == i
  {
    if i == 87 { ProbeRecoversAt87(); } else if i == 88 { ProbeRecoversAt88(); } else if i == 89 { ProbeRecoversAt89(); } else if i == 90 { ProbeRecoversAt90(); } else if i == 91 { ProbeRecoversAt91(); } else if i == 92 { ProbeRecoversAt92(); } else { ProbeRecoversAt93(); }
  }

  lemma ProbeRecoversAt94()
    ensures ProbeIndex(ToLower(UNITY_EXTENSIONS[94])) == 94
  {
  }

  lemma ProbeRecoversAt95()
    ensures ProbeIndex(ToLower(UNITY_EXTENSIONS[95])) == 95
  {
  }

  lemma ProbeRecoversAt96()
    ensures ProbeIndex(ToLower(UNITY_EXTENSIONS[96])) == 96
  {
  }

  lemma ProbeRecovers94To96(i: int)
    requires 94 <= i < 97
    ensures ProbeIndex(ToLower(UNITY_EXTENSIONS[i])) == i
  {
    if i == 94 { ProbeRecoversAt94(); } else if i == 95 { ProbeRecoversAt95(); } else { ProbeRecoversAt96(); }
  }

  lemma ProbeRecovers97(i: int)
    requires i == 97
    ensures ProbeIndex(ToLower(UNITY_EXTENSIONS[i])) == i
  {
    {}
  }

  lemma ProbeRecoversAt98()
    ensures ProbeIndex(ToLower(UNITY_EXTENSIONS[98])) == 98
  {
  }

  lemma ProbeRecoversAt99()
    ensures ProbeIndex(ToLower(UNITY_EXTENSIONS[99])) == 99
  {
  }

  lemma ProbeRecovers98To99(i: int)
    requires 98 <= i < 100
    ensures ProbeIndex(ToLower(UNITY_EXTENSIONS[i])) == i
  {
    if i == 98 { ProbeRecoversAt98(); } else { ProbeRecoversAt99(); }
  }

  lemma ProbeRecoversAt100()
    ensures ProbeIndex(ToLower(UNITY_EXTENSIONS[100])) == 100
  {
  }

  lemma ProbeRecoversAt101()
    ensures ProbeIndex(ToLower(UNITY_EXTENSIONS[101])) == 101
  {
  }

  lemma ProbeRecoversAt102()
    ensures ProbeIndex(ToLower(UNITY_EXTENSIONS[102])) == 102
  {
  }

  lemma ProbeRecoversAt103()
    ensures ProbeIndex(ToLower(UNITY_EXTENSIONS[103])) == 103
  {
  }

  lemma ProbeRecovers100To103(i: int)
    requires 100 <= i < 104
    ensures ProbeIndex(ToLower(UNITY_EXTENSIONS[i])) == i
  {
    if i == 100 { ProbeRecoversAt100(); } else if i == 101 { ProbeRecoversAt101(); } else if i == 102 { ProbeRecoversAt102(); } else { ProbeRecoversAt103(); }
  }

  lemma ProbeRecoversAt104()
    ensures ProbeIndex(ToLower(UNITY_EXTENSIONS[104])) == 104
  {
  }

  lemma ProbeRecoversAt105()
    ensures ProbeIndex(ToLower(UNITY_EXTENSIONS[105])) == 105
  {
  }

  lemma ProbeRecoversAt106()
    ensures ProbeIndex(ToLower(UNITY_EXTENSIONS[106])) == 106
  {
  }

  lemma ProbeRecoversAt107()
    ensures ProbeIndex(ToLower(UNITY_EXTENSIONS[107])) == 107
  {
  }

  lemma ProbeRecoversAt108()
    ensures ProbeIndex(ToLower(UNITY_EXTENSIONS[108])) == 108
  {
  }

  lemma ProbeRecoversAt109()
    ensures ProbeIndex(ToLower(UNITY_EXTENSIONS[109])) == 109
  {
  }

  lemma ProbeRecoversAt110()
    ensures ProbeIndex(ToLower(UNITY_EXTENSIONS[110])) == 110
  {
  }

  lemma ProbeRecovers104To110(i: int)
    requires 104 <= i < 111
    ensures ProbeIndex(ToLower(UNITY_EXTENSIONS[i])) == i
  {
    if i == 104 { ProbeRecoversAt104(); } else if i == 105 { ProbeRecoversAt105(); } else if i == 106 { ProbeRecoversAt106(); } else if i == 107 { ProbeRecoversAt107(); } else if i == 108 { ProbeRecoversAt108(); } else if i == 109 { ProbeRecoversAt109(); } else { ProbeRecoversAt110(); }
  }

  lemma ProbeRecoversAt111()
    ensures ProbeIndex(ToLower(UNITY_EXTENSIONS[111])) == 111
  {
  }

  lemma ProbeRecoversAt112()
    ensures ProbeIndex(ToLower(UNITY_EXTENSIONS[112])) == 112
  {
  }

  lemma ProbeRecoversAt113()
    ensures ProbeIndex(ToLower(UNITY_EXTENSIONS[113])) == 113
  {
  }

  lemma ProbeRecoversAt114()
    ensures ProbeIndex(ToLower(UNITY_EXTENSIONS[114])) == 114
  {
  }

  lemma ProbeRecoversAt115()
    ensures ProbeIndex(ToLower(UNITY_EXTENSIONS[115])) == 115
  {
  }

  lemma ProbeRecoversAt116()
    ensures ProbeIndex(ToLower(UNITY_EXTENSIONS[116])) == 116
  {
  }

  lemma ProbeRecoversAt117()
    ensures ProbeIndex(ToLower(UNITY_EXTENSIONS[117])) == 117
  {
  }

  lemma ProbeRecovers111To117(i: int)
    requires 111 <= i < 118
    ensures ProbeIndex(ToLower(UNITY_EXTENSIONS[i])) == i
  {
    if i == 111 { ProbeRecoversAt111(); } else if i == 112 { ProbeRecoversAt112(); } else if i == 113 { ProbeRecoversAt113(); } else if i == 114 { ProbeRecoversAt114(); } else if i == 115 { ProbeRecoversAt115(); } else if i == 116 { ProbeRecoversAt116(); } else { ProbeRecoversAt117(); }
  }

  lemma ProbeRecoversAt118()
    ensures ProbeIndex(ToLower(UNITY_EXTENSIONS[118])) == 118
  {
  }

  lemma ProbeRecoversAt119()
    ensures ProbeIndex(ToLower(UNITY_EXTENSIONS[119])) == 119
  {
  }

  lemma ProbeRecoversAt120()
    ensures ProbeIndex(ToLower(UNITY_EXTENSIONS[120])) == 120
  {
  }

  lemma ProbeRecoversAt121()
    ensures ProbeIndex(ToLower(UNITY_EXTENSIONS[121])) == 121
  {
  }

  lemma ProbeRecoversAt122()
    ensures ProbeIndex(ToLower(UNITY_EXTENSIONS[122])) == 122
  {
  }

  lemma ProbeRecovers118To122(i: int)
    requires 118 <= i < 123
    ensures ProbeIndex(ToLower(UNITY_EXTENSIONS[i])) == i
  {
    if i == 118 { ProbeRecoversAt118(); } else if i == 119 { ProbeRecoversAt119(); } else if i == 120 { ProbeRecoversAt120(); } else if i == 121 { ProbeRecoversAt121(); } else { ProbeRecoversAt122(); }
  }

  lemma ProbeRecovers123(i: int)
    requires i == 123
    ensures ProbeIndex(ToLower(UNITY_EXTENSIONS[i])) == i
  {
    {}
  }

  lemma ProbeRecoversAt124()
    ensures ProbeIndex(ToLower(UNITY_EXTENSIONS[124])) == 124
  {
  }

  lemma ProbeRecoversAt125()
    ensures ProbeIndex(ToLower(UNITY_EXTENSIONS[125])) == 125
  {
  }

  lemma ProbeRecoversAt126()
    ensures ProbeIndex(ToLower(UNITY_EXTENSIONS[126])) == 126
  {
  }

  lemma ProbeRecoversAt127()
    ensures ProbeIndex(ToLower(UNITY_EXTENSIONS[127])) == 127
  {
  }

  lemma ProbeRecoversAt128()
    ensures ProbeIndex(ToLower(UNITY_EXTENSIONS[128])) == 128
  {
  }

  lemma ProbeRecoversAt129()
    ensures ProbeIndex(ToLower(UNITY_EXTENSIONS[129])) == 129
  {
  }

  lemma ProbeRecoversAt130()
    ensures ProbeIndex(ToLower(UNITY_EXTENSIONS[130])) == 130
  {
  }

  lemma ProbeRecovers124To130(i: int)
    requires 124 <= i < 131
    ensures ProbeIndex(ToLower(UNITY_EXTENSIONS[i])) == i
  {
    if i == 124 { ProbeRecoversAt124(); } else if i == 125 { ProbeRecoversAt125(); } else if i == 126 { ProbeRecoversAt126(); } else if i == 127 { ProbeRecoversAt127(); } else if i == 128 { ProbeRecoversAt128(); } else if i == 129 { ProbeRecoversAt129(); } else { ProbeRecoversAt130(); }
  }

  lemma ProbeRecoversAt131()
    ensures ProbeIndex(ToLower(UNITY_EXTENSIONS[131])) == 131
  {
  }

  lemma ProbeRecoversAt132()
    ensures ProbeIndex(ToLower(UNITY_EXTENSIONS[132])) == 132
  {
  }

  lemma ProbeRecoversAt133()
    ensures ProbeIndex(ToLower(UNITY_EXTENSIONS[133])) == 133
  {
  }

  lemma ProbeRecoversAt134()
    ensures ProbeIndex(ToLower(UNITY_EXTENSIONS[134])) == 134
  {
  }

  lemma ProbeRecoversAt135()
    ensures ProbeIndex(ToLower(UNITY_EXTENSIONS[135])) == 135
  {
  }

  lemma ProbeRecovers131To135(i: int)
    requires 131 <= i < 136
    ensures ProbeIndex(ToLower(UNITY_EXTENSIONS[i])) == i
  {
    if i == 131 { ProbeRecoversAt131(); } else if i == 132 { ProbeRecoversAt132(); } else if i == 133 { ProbeRecoversAt133(); } else if i == 134 { ProbeRecoversAt134(); } else { ProbeRecoversAt135(); }
  }

  lemma ProbeRecoversAt136()
    ensures ProbeIndex(ToLower(UNITY_EXTENSIONS[136])) == 136
  {
  }

  lemma ProbeRecoversAt137()
    ensures ProbeIndex(ToLower(UNITY_EXTENSIONS[137])) == 137
  {
  }

  lemma ProbeRecoversAt138()
    ensures ProbeIndex(ToLower(UNITY_EXTENSIONS[138])) == 138
  {
  }

  lemma ProbeRecoversAt139()
    ensures ProbeIndex(ToLower(UNITY_EXTENSIONS[139])) == 139
  {
  }

  lemma ProbeRecoversAt140()
    ensures ProbeIndex(ToLower(UNITY_EXTENSIONS[140])) == 140
  {
  }

  lemma ProbeRecoversAt141()
    ensures ProbeIndex(ToLower(UNITY_EXTENSIONS[141])) == 141
  {
  }

  lemma ProbeRecoversAt142()
    ensures ProbeIndex(ToLower(UNITY_EXTENSIONS[142])) == 142
  {
  }

  lemma ProbeRecovers136To142(i: int)
    requires 136 <= i < 143
    ensures ProbeIndex(ToLower(UNITY_EXTENSIONS[i])) == i
  {
    if i == 136 { ProbeRecoversAt136(); } else if i == 137 { ProbeRecoversAt137(); } else if i == 138 { ProbeRecoversAt138(); } else if i == 139 { ProbeRecoversAt139(); } else if i == 140 { ProbeRecoversAt140(); } else if i == 141 { ProbeRecoversAt141(); } else { ProbeRecoversAt142(); }
  }

  lemma ProbeRecoversAt143()
    ensures ProbeIndex(ToLower(UNITY_EXTENSIONS[143])) == 143
  {
  }

  lemma ProbeRecoversAt144()
    ensures ProbeIndex(ToLower(UNITY_EXTENSIONS[144])) == 144
  {
  }

  lemma ProbeRecoversAt145()
    ensures ProbeIndex(ToLower(UNITY_EXTENSIONS[145])) == 145
  {
  }

  lemma ProbeRecovers143To145(i: int)
    requires 143 <= i < 146
    ensures ProbeIndex(ToLower(UNITY_EXTENSIONS[i])) == i
  {
    if i == 143 { ProbeRecoversAt143(); } else if i == 144 { ProbeRecoversAt144(); } else { ProbeRecoversAt145(); }
  }

  /** Every table entry, lower-cased, is recognised at its own position. */
  lemma ProbeRecoversIndex(i: int)
    requires 0 <= i < |UNITY_EXTENSIONS|
    ensures ProbeIndex(ToLower(UNITY_EXTENSIONS[i])) == i
  {
    if i < 7 { ProbeRecovers0To6(i); }
    else if i < 14 { ProbeRecovers7To13(i); }
    else if i < 17 { ProbeRecovers14To16(i); }
    else if i < 21 { ProbeRecovers17To20(i); }
    else if i < 24 { ProbeRecovers21To23(i); }
    else if i < 26 { ProbeRecovers24To25(i); }
    else if i < 29 { ProbeRecovers26To28(i); }
    else if i < 33 { ProbeRecovers29To32(i); }
    else if i < 37 { ProbeRecovers33To36(i); }
    else if i < 39 { ProbeRecovers37To38(i); }
    else if i < 40 { ProbeRecovers39(i); }
    else if i < 42 { ProbeRecovers40To41(i); }
    else if i < 47 { ProbeRecovers42To46(i); }
    else if i < 51 { ProbeRecovers47To50(i); }
    else if i < 52 { ProbeRecovers51(i); }
    else if i < 56 { ProbeRecovers52To55(i); }
    else if i < 59 { ProbeRecovers56To58(i); }
    else if i < 63 { ProbeRecovers59To62(i); }
    else if i < 70 { ProbeRecovers63To69(i); }
    else if i < 73 { ProbeRecovers70To72(i); }
    else if i < 77 { ProbeRecovers73To76(i); }
    else if i < 81 { ProbeRecovers77To80(i); }
    else if i < 82 { ProbeRecovers81(i); }
    else if i < 83 { ProbeRecovers82(i); }
    else if i < 85 { ProbeRecovers83To84(i); }
    else if i < 86 { ProbeRecovers85(i); }
    else if i < 87 { ProbeRecovers86(i); }
    else if i < 94 { ProbeRecovers87To93(i); }
    else if i < 97 { ProbeRecovers94To96(i); }
    else if i < 98 { ProbeRecovers97(i); }
    else if i < 100 { ProbeRecovers98To99(i); }
    else if i < 104 { ProbeRecovers100To103(i); }
    else if i < 111 { ProbeRecovers104To110(i); }
    else if i < 118 { ProbeRecovers111To117(i); }
    else if i < 123 { ProbeRecovers118To122(i); }
    else if i < 124 { ProbeRecovers123(i); }
    else if i < 131 { ProbeRecovers124To130(i); }
    else if i < 136 { ProbeRecovers131To135(i); }
    else if i < 143 { ProbeRecovers136To142(i); }
    else { ProbeRecovers143To145(i); }
  }

  /** No two table entries coincide once lower-cased. */
  lemma EntriesDistinctIgnoringCase(i: int, j: int)
    requires 0 <= i < |UNITY_EXTENSIONS| && 0 <= j < |UNITY_EXTENSIONS| && i != j
    ensures ToLower(UNITY_EXTENSIONS[i]) != ToLower(UNITY_EXTENSIONS[j])
  {
    ProbeRecoversIndex(i);
    ProbeRecoversIndex(j);
  }

  /**
   * The exact lookup never disagrees with the case-insensitive one: the
   * position the classifier settles on is the case-insensitive position.
   */
  lemma LookupIsCaseInsensitive(ext: string)
    ensures LookupIndex(ext) == FirstIgnoringCase(UNITY_EXTENSIONS, ext)
  {
    var exact := FirstExact(UNITY_EXTENSIONS, ext);
    if exact != -1 {
      var f := FirstIgnoringCase(UNITY_EXTENSIONS, ext);
      if f != exact {
        assert f < exact;
        EntriesDistinctIgnoringCase(f, exact);
      }
    }
  }

  /** The first case-insensitive match depends only on the lower-cased key. */
  lemma {:induction false} FirstIgnoringCaseOfLower(table: seq<string>, x: string, y: string)
    requires ToLower(x) == ToLower(y)
    ensures FirstIgnoringCase(table, x) == FirstIgnoringCase(table, y)
  {
    if table != [] {
      FirstIgnoringCaseOfLower(table[1..], x, y);
    }
  }

  /** The position found for an extension is decided by its lower-cased form alone. */
  lemma LookupIgnoresCase(e1: string, e2: string)
    requires ToLower(e1) == ToLower(e2)
    ensures LookupIndex(e1) == LookupIndex(e2)
  {
    LookupIsCaseInsensitive(e1);
    LookupIsCaseInsensitive(e2);
    FirstIgnoringCaseOfLower(UNITY_EXTENSIONS, e1, e2);
  }

  /** Two extensions that differ only in letter case classify the same file alike. */
  lemma GetAssetTypeIgnoresCase(e1: string, e2: string, size: nat, text: string)
    requires ToLower(e1) == ToLower(e2)
    ensures GetAssetType(e1, size, text) == GetAssetType(e2, size, text)
  {
    LookupIgnoresCase(e1, e2);
  }

  /** Every entry is found at its own position, in any letter case. */
  lemma LookupFindsEntry(i: int, ext: string)
    requires 0 <= i < |UNITY_EXTENSIONS| && ToLower(ext) == ToLower(UNITY_EXTENSIONS[i])
    ensures LookupIndex(ext) == i
  {
    LookupIsCaseInsensitive(ext);
    var f := FirstIgnoringCase(UNITY_EXTENSIONS, ext);
    if f < i {
      EntriesDistinctIgnoringCase(f, i);
    }
  }

  /** An extension outside the table, in every letter case, is found nowhere. */
  lemma LookupMisses(ext: string)
    requires forall i :: 0 <= i < |UNITY_EXTENSIONS| ==> ToLower(UNITY_EXTENSIONS[i]) != ToLower(ext)
    ensures LookupIndex(ext) == |UNITY_EXTENSIONS|
  {
    LookupIsCaseInsensitive(ext);
  }

  /**
   * The ranges cover the table: every position has a kind, never `None`,
   * `EditorTool` or `Text`, and the miss value maps to `None`.
   */
  lemma RangesCoverTable(i: int)
    requires 0 <= i < |UNITY_EXTENSIONS|
    ensures KindOfIndex(i) !in {None, EditorTool, Text}
    ensures KindOfIndex(|UNITY_EXTENSIONS|) == None
  {
  }

  /** The ranges are contiguous and do not overlap: kinds appear along the table in the order of their declaration. */
  lemma RangesOrdered(i: int, j: int)
    requires 0 <= i <= j < |UNITY_EXTENSIONS|
    ensures Ordinal(KindOfIndex(i)) <= Ordinal(KindOfIndex(j))
  {
  }

  /** A table entry, in any letter case, classifies as its range's kind. */
  lemma TableEntryKind(i: int, ext: string, size: nat, text: string)
    requires 0 <= i < |UNITY_EXTENSIONS| && i != SCRIPT_INDEX
    requires ToLower(ext) == ToLower(UNITY_EXTENSIONS[i])
    ensures GetAssetType(ext, size, text) == Ok(KindOfIndex(i))
    ensures KindOfIndex(i) != None
  {
    LookupFindsEntry(i, ext);
    RangesCoverTable(i);
  }

  lemma LowerOfLowerCaseEntry()
    ensures ToLower(".cs") == ".cs"
  {
    assert ToLower(".cs")[0] == '.';
    assert ToLower(".cs")[1] == 'c';
    assert ToLower(".cs")[2] == 's';
  }

  /** The script position is found exactly for `.cs` in any letter case. */
  lemma ScriptPosition(ext: string)
    ensures LookupIndex(ext) == SCRIPT_INDEX <==> ToLower(ext) == ".cs"
  {
    LowerOfLowerCaseEntry();
    assert UNITY_EXTENSIONS[SCRIPT_INDEX] == ".cs";
    LookupIsCaseInsensitive(ext);
    if ToLower(ext) == ".cs" {
      LookupFindsEntry(SCRIPT_INDEX, ext);
    }
  }

  /**
   * A script (`.cs` in any letter case) is an editor tool exactly when its
   * text imports the editor API, and a plain script otherwise; nothing else
   * is ever an editor tool or a script.
   */
  lemma ScriptKind(ext: string, size: nat, text: string)
    ensures GetAssetType(ext, size, text) == Ok(EditorTool)
      <==> ToLower(ext) == ".cs" && Contains(text, EDITOR_IMPORT)
    ensures GetAssetType(ext, size, text) == Ok(Script)
      <==> ToLower(ext) == ".cs" && !Contains(text, EDITOR_IMPORT)
  {
    ScriptPosition(ext);
    var index := LookupIndex(ext);
    if index != SCRIPT_INDEX {
      if 0 <= index < |UNITY_EXTENSIONS| {
        RangesCoverTable(index);
      }
    }
  }

  /**
   * An extension in no letter case in the table falls back to sniffing the
   * text: `Text` exactly when the file is small and its sample is ASCII, an
   * exception when the sample is cut short, and `None` otherwise.
   */
  lemma UnknownExtensionKind(ext: string, size: nat, text: string)
    requires forall i :: 0 <= i < |UNITY_EXTENSIONS| ==> ToLower(UNITY_EXTENSIONS[i]) != ToLower(ext)
    ensures GetAssetType(ext, size, text) == Ok(Text) <==>
      size < MAX_FILE_SIZE && Min(TEXT_SAMPLE, size) <= |text|
      && forall i :: 0 <= i < Min(TEXT_SAMPLE, size) ==> text[i] as int < 128
    ensures GetAssetType(ext, size, text) == Throws <==>
      size < MAX_FILE_SIZE && |text| < Min(TEXT_SAMPLE, size)
    ensures GetAssetType(ext, size, text) != Throws ==>
      GetAssetType(ext, size, text) in {Ok(Text), Ok(None)}
  {
    LookupMisses(ext);
  }
}
