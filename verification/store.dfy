/** The helpers of `lib/Util.ts` this model needs: the key-value session
    document, the file paths under the user's home, the platform test, the
    random sign-up code and the status-bar setter. */
module Store {
  import opened Js

  // ---------------------------------------------------------------------
  // Session document
  // ---------------------------------------------------------------------

  /** What `session.json` holds when it is read. */
  datatype SessionFile =
    | Missing          // no file
    | Blank            // a file whose text is empty
    | FalsyJson        // JSON text whose value is falsy (`null`, `0`, `false`, `""`)
    | Json(doc: Object)

  /** Reads the whole document; every form without an object reads as `{}`. */
  function ReadSession(f: SessionFile): (r: Object)
    ensures f.Json? ==> r == f.doc
    ensures !f.Json? ==> r == map[]
  {
    match f
    case Json(doc) => doc
    case _ => map[]
  }

  /** Whole-document read, one-key update, whole-document write. */
  function SetItem(f: SessionFile, key: string, value: JsValue): (r: SessionFile)
    ensures r.Json?
    ensures r.doc.Keys == ReadSession(f).Keys + {key}
    ensures r.doc[key] == value
    ensures forall k :: k in ReadSession(f) && k != key ==> r.doc[k] == ReadSession(f)[k]
  {
    Json(ReadSession(f)[key := value])
  }

  /** `jsonObj[key] || null`: the stored value when truthy, else `null`. */
  function GetItem(f: SessionFile, key: string): (r: JsValue)
    ensures r == Null || Truthy(r)
    ensures Truthy(r) <==> key in ReadSession(f) && Truthy(ReadSession(f)[key])
    ensures Truthy(r) ==> r == ReadSession(f)[key]
  {
    var doc := ReadSession(f);
    if key in doc then Or(doc[key], Null) else Null
  }

  /** Reading a key just written gives the written value, or `null` when it
      was falsy. */
  lemma GetItemAfterSetItem(f: SessionFile, key: string, value: JsValue)
    ensures GetItem(SetItem(f, key, value), key) == (if Truthy(value) then value else Null)
  {
  }

  /** Writing one key leaves what every other key reads unchanged. */
  lemma SetItemKeepsOtherKeys(f: SessionFile, key: string, value: JsValue, other: string)
    requires other != key
    ensures GetItem(SetItem(f, key, value), other) == GetItem(f, other)
  {
  }

  /** A second write of the same key replaces the first. */
  lemma SetItemOverwrites(f: SessionFile, key: string, v1: JsValue, v2: JsValue)
    ensures SetItem(SetItem(f, key, v1), key, v2) == SetItem(f, key, v2)
  {
  }

  /** Writes of different keys commute. */
  lemma SetItemCommutes(f: SessionFile, k1: string, v1: JsValue, k2: string, v2: JsValue)
    requires k1 != k2
    ensures SetItem(SetItem(f, k1, v1), k2, v2) == SetItem(SetItem(f, k2, v2), k1, v1)
  {
    var a := SetItem(SetItem(f, k1, v1), k2, v2).doc;
    var b := SetItem(SetItem(f, k2, v2), k1, v1).doc;
    assert a.Keys == b.Keys;
    assert forall k :: k in a ==> a[k] == b[k];
  }

  // ---------------------------------------------------------------------
  // Platform and paths
  // ---------------------------------------------------------------------

  /** `sub` occurs in `s` starting at index `i`. */
  predicate OccursAt(s: string, sub: string, i: int)
  {
    0 <= i && i + |sub| <= |s| && s[i..i + |sub|] == sub
  }

  /** `s.indexOf(sub, from)`: the first occurrence at or after `from`, or -1. */
  function IndexOfFrom(s: string, sub: string, from: nat): (r: int)
    requires from <= |s|
    ensures r == -1 || (from <= r && OccursAt(s, sub, r))
    ensures r == -1 ==> forall i :: from <= i ==> !OccursAt(s, sub, i)
    ensures r != -1 ==> forall i :: from <= i < r ==> !OccursAt(s, sub, i)
    decreases |s| - from
  {
    if from + |sub| > |s| then -1
    else if s[from..from + |sub|] == sub then from
    else IndexOfFrom(s, sub, from + 1)
  }

  function IndexOf(s: string, sub: string): int
  {
    IndexOfFrom(s, sub, 0)
  }

  /** `process.platform.indexOf("win32") !== -1` */
  predicate IsWindows(platform: string)
    ensures IsWindows(platform) ==> OccursAt(platform, "win32", IndexOf(platform, "win32"))
    ensures platform == "win32" ==> IsWindows(platform)
  {
    IndexOf(platform, "win32") != -1
  }

  /** The platform test holds exactly when "win32" occurs in the platform name. */
  lemma IsWindowsIffContainsWin32(platform: string)
    ensures IsWindows(platform) <==> exists i :: OccursAt(platform, "win32", i)
  {
    if IsWindows(platform) {
      assert OccursAt(platform, "win32", IndexOf(platform, "win32"));
    }
  }

  function Separator(platform: string): string
  {
    if IsWindows(platform) then "\\" else "/"
  }

  /** `~/.software`, joined by the platform's separator. */
  function SoftwareDir(home: string, platform: string): (dir: string)
    ensures |dir| == |home| + 10 && dir[..|home|] == home
    ensures dir[|home|..] == (if IsWindows(platform) then "\\.software" else "/.software")
  {
    home + Separator(platform) + ".software"
  }

  /** A file directly inside the software directory. */
  function InSoftwareDir(home: string, platform: string, name: string): (r: string)
    ensures r == home + Separator(platform) + ".software" + Separator(platform) + name
    ensures |r| == |home| + 11 + |name|
  {
    SoftwareDir(home, platform) + Separator(platform) + name
  }

  /** `~/.software/session.json` */
  function SoftwareSessionFile(home: string, platform: string): (p: string)
    ensures |p| == |home| + 23 && p[..|home|] == home && p[|home| + 11..] == "session.json"
    ensures p[|home|..|home| + 11] == (if IsWindows(platform) then "\\.software\\" else "/.software/")
  {
    InSoftwareDirLayout(home, platform, "session.json");
    InSoftwareDir(home, platform, "session.json")
  }

  /** `~/.software/data.json` */
  function SoftwareDataStoreFile(home: string, platform: string): (p: string)
    ensures |p| == |home| + 20 && p[..|home|] == home && p[|home| + 11..] == "data.json"
    ensures p[|home|..|home| + 11] == (if IsWindows(platform) then "\\.software\\" else "/.software/")
  {
    InSoftwareDirLayout(home, platform, "data.json");
    InSoftwareDir(home, platform, "data.json")
  }

  /** The layout of a path under the software directory: the home directory,
      then the platform's separator, `.software`, the separator again and the
      file name; so the path gives back the home directory and the file name. */
  lemma InSoftwareDirLayout(home: string, platform: string, name: string)
    ensures var p := InSoftwareDir(home, platform, name);
      && p[..|home|] == home
      && p[|home|..|home| + 11] == (if IsWindows(platform) then "\\.software\\" else "/.software/")
      && p[|home| + 11..] == name
  {
    var p := InSoftwareDir(home, platform, name);
    var sep := Separator(platform);
    assert p == home + (sep + ".software" + sep) + name;
  }

  /** Different homes or different file names give different paths. */
  lemma InSoftwareDirInjective(h1: string, h2: string, platform: string, n1: string, n2: string)
    requires InSoftwareDir(h1, platform, n1) == InSoftwareDir(h2, platform, n2)
    requires |h1| == |h2| || |n1| == |n2|
    ensures h1 == h2 && n1 == n2
  {
    InSoftwareDirLayout(h1, platform, n1);
    InSoftwareDirLayout(h2, platform, n2);
  }

  /** The session file and the data store file of one home are different files. */
  lemma SessionAndDataFilesDiffer(home: string, platform: string)
    ensures SoftwareSessionFile(home, platform) != SoftwareDataStoreFile(home, platform)
  {
    InSoftwareDirLayout(home, platform, "session.json");
    InSoftwareDirLayout(home, platform, "data.json");
  }

  // ---------------------------------------------------------------------
  // Random sign-up code
  // ---------------------------------------------------------------------

  newtype byte = x: int | 0 <= x < 256

  /** The 32 letters and digits a code is drawn from (no I, O, 0 or 1). */
  const Alpha: string := "ABCDEFGHJKLMNPQRSTUVWXYZ23456789"

  /** The index `floor(v * alpha.length / 256)` a byte selects. */
  function AlphaIndex(v: byte): (i: nat)
    ensures i < |Alpha|
    ensures 8 * i <= v as int < 8 * i + 8
  {
    (v as int * |Alpha|) / 256
  }

  /** The code for the given random bytes, one letter per byte. */
  function RandomCode(random: seq<byte>): (r: string)
    requires |random| == 16
    ensures |r| == 16
    ensures forall i :: 0 <= i < 16 ==> r[i] == Alpha[AlphaIndex(random[i])]
    ensures forall i :: 0 <= i < 16 ==> r[i] in Alpha
  {
    seq(16, i requires 0 <= i < 16 => Alpha[AlphaIndex(random[i])])
  }

  /** Every letter is selected by exactly the eight bytes `8*j .. 8*j+7`, so
      uniform bytes give uniform letters. */
  lemma AlphaIndexPreimage(v: byte, j: nat)
    requires j < |Alpha|
    ensures AlphaIndex(v) == j <==> 8 * j <= v as int < 8 * j + 8
  {
  }

  // ---------------------------------------------------------------------
  // Status bar
  // ---------------------------------------------------------------------

  datatype StatusBar = StatusBar(text: string, tooltip: string)

  const DefaultTooltip: string := "Click to see more from Software.com"

  /** Sets the status-bar text; a falsy tooltip (the empty string stands for
      `null` too) is replaced by the default one. */
  function ShowStatus(msg: string, tooltip: string): (r: StatusBar)
    ensures r.text == msg
    ensures r.tooltip != ""
    ensures tooltip == "" ==> r.tooltip == DefaultTooltip
    ensures tooltip != "" ==> r.tooltip == tooltip
  {
    StatusBar(msg, if tooltip == "" then DefaultTooltip else tooltip)
  }
}
