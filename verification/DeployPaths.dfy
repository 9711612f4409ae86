/** Where a registration may write: generateDeployPath and buildDesktopFilePath of
    src/libappimage/desktop_integration/integrator/Integrator.cpp, on paths as strings. */
module DeployPaths {
  import StringSanitizer

  const VENDOR_PREFIX := "appimagekit"

  /** std::string::find(sub) != npos */
  predicate Contains(s: string, sub: string) {
    exists i | 0 <= i <= |s| :: At(s, sub, i)
  }

  predicate At(s: string, sub: string, i: nat) {
    i + |sub| <= |s| && s[i..i + |sub|] == sub
  }

  lemma ContainsPart(a: string, sub: string, b: string)
    ensures Contains(a + sub + b, sub)
  {
    assert At(a + sub + b, sub, |a|);
  }

  // std::filesystem::path

  /** a / b for a relative b */
  function Append(a: string, b: string): string {
    if a == "" || a[|a| - 1] == '/' then a + b else a + "/" + b
  }

  function Filename(path: string): (name: string)
    ensures |name| <= |path|
  {
    if path == "" || path[|path| - 1] == '/' then "" else Filename(path[..|path| - 1]) + [path[|path| - 1]]
  }

  /** remove_filename */
  function Parent(path: string): string {
    path[..|path| - |Filename(path)|]
  }

  predicate SlashFree(s: string) { '/' !in s }

  predicate IsComponent(s: string) { s != "" && SlashFree(s) }

  ghost predicate AllComponents(components: seq<string>) { forall c <- components :: IsComponent(c) }

  /** The names between separators, empty ones dropped; current is the name being read. */
  function Split(s: string, current: string): seq<string> {
    if s == "" then (if current == "" then [] else [current])
    else if s[0] == '/' then (if current == "" then [] else [current]) + Split(s[1..], "")
    else Split(s[1..], current + [s[0]])
  }

  function Components(s: string): seq<string> { Split(s, "") }

  function JoinSlash(components: seq<string>): string {
    if components == [] then "" else JoinSlash(components[..|components| - 1]) + components[|components| - 1] + "/"
  }

  /** Directory prefixes end in exactly one more separator. */
  function Slash(home: string): string { Append(home, "") }

  lemma {:induction false} SplitName(c: string, s: string, current: string)
    requires SlashFree(c)
    ensures Split(c + s, current) == Split(s, current + c)
  {
    if c == "" {
      assert c + s == s && current + c == current;
    } else {
      SplitName(c[1..], s, current + [c[0]]);
      assert (c + s)[1..] == c[1..] + s;
      assert current + [c[0]] + c[1..] == current + c;
    }
  }

  lemma SplitComponent(c: string, s: string)
    requires IsComponent(c)
    ensures Components(c + "/" + s) == [c] + Components(s)
  {
    assert c + "/" + s == c + ("/" + s);
    SplitName(c, "/" + s, "");
    assert "" + c == c;
    assert ("/" + s)[1..] == s;
  }

  lemma {:induction false} SplitJoined(components: seq<string>, s: string)
    requires AllComponents(components)
    ensures Components(JoinSlash(components) + s) == components + Components(s)
  {
    hide Components;
    if components == [] {
      assert JoinSlash(components) + s == s;
    } else {
      var front, last := components[..|components| - 1], components[|components| - 1];
      SplitJoined(front, last + "/" + s);
      SplitComponent(last, s);
      assert JoinSlash(components) + s == JoinSlash(front) + (last + "/" + s);
      assert front + ([last] + Components(s)) == components + Components(s);
    }
  }

  lemma {:induction false} SplitGivesComponents(s: string, current: string)
    requires SlashFree(current)
    ensures AllComponents(Split(s, current))
  {
    if s != "" {
      SplitGivesComponents(s[1..], if s[0] == '/' then "" else current + [s[0]]);
    }
  }

  // generateDeployPath

  /** The parent without the leading "usr/share", or several of them. */
  function Strip(components: seq<string>): seq<string> {
    if |components| >= 2 && components[0] == "usr" && components[1] == "share" then Strip(components[2..])
    else components
  }

  function FileNameFor(id: string, path: string): string {
    VENDOR_PREFIX + "_" + id + "_" + Filename(path)
  }

  function DeployPath(home: string, id: string, path: string): string {
    Slash(home) + JoinSlash(Strip(Components(Parent(path)))) + FileNameFor(id, path)
  }

  /** Entry paths are relative; the operator / of std::filesystem would put an absolute one in
      the place of the data home. */
  predicate Relative(path: string) { path == "" || path[0] != '/' }

  method GenerateDeployPath(home: string, id: string, path: string) returns (newPath: string)
    requires home != "" && Relative(path)
    ensures newPath == DeployPath(home, id, path)
  {
    hide Components, JoinSlash, Strip, Filename;
    var relativeParentPath := RelativeParentPath(Parent(path));
    AppendDirectory(home, relativeParentPath, Strip(Components(Parent(path))));
    newPath := Append(Append(home, relativeParentPath), VENDOR_PREFIX + "_" + id + "_" + Filename(path));
  }

  /** The loop of generateDeployPath, including its visit of the empty last element. */
  method RelativeParentPath(parent: string) returns (rel: string)
    ensures rel == JoinSlash(Strip(Components(parent)))
  {
    hide JoinSlash, Append, IsJoined, Split, Strip, IsComponent;
    var components := Components(parent);
    SplitGivesComponents(parent, "");
    SplitNothing();
    NothingJoined();
    rel := "";
    ghost var kept: seq<string> := [];
    assert kept + components[0..] == components;
    for i := 0 to |components|
      invariant Strip(components) == Strip(kept + components[i..])
      invariant Strip(kept) == kept && AllComponents(kept) && IsJoined(rel, kept)
    {
      assert kept + components[i..] == kept + [components[i]] + components[i + 1..];
      AppendComponent(rel, kept, components[i]);
      rel := Append(rel, components[i]);
      StripNext(kept, components[i], components[i + 1..]);
      kept := kept + [components[i]];
      JoinedIsUsrShare(rel, kept);
      if rel == "usr/share" {
        rel := "";
        kept := [];
      }
    }
    assert kept + components[|components|..] == kept;
    CloseDirectory(rel, kept);
    if parent != "" {
      rel := Append(rel, "");
    }
  }

  /** Appending a name to a stripped path strips nothing, unless it completes "usr/share". */
  lemma StripNext(kept: seq<string>, c: string, rest: seq<string>)
    requires Strip(kept) == kept
    ensures if kept + [c] == ["usr", "share"] then Strip(kept + [c] + rest) == Strip([] + rest) && Strip([]) == []
            else Strip(kept + [c]) == kept + [c]
  {
    if kept + [c] == ["usr", "share"] {
      assert (["usr", "share"] + rest)[2..] == rest == [] + rest;
    } else if |kept| >= 2 && kept[0] == "usr" && kept[1] == "share" {
      StripShortens(kept[2..]);
    }
  }

  lemma {:induction false} StripShortens(components: seq<string>)
    ensures |Strip(components)| <= |components|
  {
    if |components| >= 2 && components[0] == "usr" && components[1] == "share" {
      StripShortens(components[2..]);
    }
  }

  lemma SplitNothing()
    ensures Components("") == []
  {
  }

  lemma NothingJoined()
    ensures IsJoined("", []) && Append("", "") == "" && Strip([]) == []
  {
  }

  /** rel is the path made of the components. */
  ghost predicate IsJoined(rel: string, components: seq<string>) {
    if components == [] then rel == "" else rel + "/" == JoinSlash(components)
  }

  lemma LastOfJoined(rel: string, components: seq<string>)
    requires IsJoined(rel, components) && components != []
    requires AllComponents(components)
    ensures rel != "" && rel[|rel| - 1] != '/'
  {
    var front, last := JoinSlash(components[..|components| - 1]), components[|components| - 1];
    assert last in components;
    assert rel + "/" == (front + last) + "/";
    assert (rel + "/")[..|rel|] == rel && ((front + last) + "/")[..|front + last|] == front + last;
    assert (front + last)[|front + last| - 1] == last[|last| - 1];
  }

  lemma AppendComponent(rel: string, components: seq<string>, c: string)
    requires IsJoined(rel, components) && IsComponent(c)
    requires AllComponents(components)
    ensures IsJoined(Append(rel, c), components + [c]) && AllComponents(components + [c])
  {
    assert (components + [c])[..|components|] == components;
    if components != [] {
      LastOfJoined(rel, components);
    }
  }

  lemma JoinedIsUsrShare(rel: string, components: seq<string>)
    requires IsJoined(rel, components) && components != []
    requires AllComponents(components)
    ensures rel == "usr/share" <==> components == ["usr", "share"]
  {
    var usrShare := ["usr", "share"];
    assert usrShare[..1] == ["usr"] && JoinSlash(["usr"]) == "usr/";
    assert JoinSlash(usrShare) == "usr/share/";
    if rel == "usr/share" {
      assert "usr/share" + "/" == "usr/share/";
      JoinIsInjective(components, usrShare);
    }
    if components == usrShare {
      DropSlash(rel, "usr/share");
    }
  }

  lemma DropSlash(a: string, b: string)
    requires a + "/" == b + "/"
    ensures a == b
  {
    assert (a + "/")[..|a|] == a && (b + "/")[..|b|] == b;
  }

  lemma JoinIsInjective(a: seq<string>, b: seq<string>)
    requires AllComponents(a) && AllComponents(b)
    requires JoinSlash(a) == JoinSlash(b)
    ensures a == b
  {
    SplitJoined(a, "");
    SplitJoined(b, "");
    assert JoinSlash(a) + "" == JoinSlash(a) && JoinSlash(b) + "" == JoinSlash(b);
    assert a + [] == a && b + [] == b;
  }

  lemma CloseDirectory(rel: string, components: seq<string>)
    requires IsJoined(rel, components)
    requires AllComponents(components)
    ensures Append(rel, "") == JoinSlash(components)
    ensures components == [] ==> rel == JoinSlash(components)
  {
    if components != [] {
      LastOfJoined(rel, components);
      assert rel + "/" + "" == rel + "/";
    }
  }

  lemma {:induction false} JoinSlashEnds(components: seq<string>)
    ensures components != [] ==> JoinSlash(components) != "" && JoinSlash(components)[|JoinSlash(components)| - 1] == '/'
  {
  }

  lemma AppendDirectory(home: string, rel: string, components: seq<string>)
    requires home != "" && rel == JoinSlash(components)
    ensures forall name :: Append(Append(home, rel), name) == Slash(home) + rel + name
  {
    JoinSlashEnds(components);
    assert Slash(home)[|Slash(home)| - 1] == '/';
    assert Append(home, rel) == Slash(home) + rel;
    if components == [] {
      assert Slash(home) + rel == Slash(home);
    }
  }

  // Which directories the paths are in

  const APPLICATIONS := "applications/"
  const ICONS := "icons/"
  const MIME := "mime/packages/"

  /** p is under one of the directories that unregistering cleans. */
  predicate Managed(home: string, p: string) {
    Slash(home) + APPLICATIONS <= p || Slash(home) + ICONS <= p || Slash(home) + MIME <= p
  }

  lemma {:induction false} JoinFront(c: string, components: seq<string>)
    ensures JoinSlash([c] + components) == c + "/" + JoinSlash(components)
  {
    if components == [] {
      assert [c] + components == [c];
      assert [c][..0] == [];
    } else {
      JoinFront(c, components[..|components| - 1]);
      assert ([c] + components)[..|components|] == [c] + components[..|components| - 1];
    }
  }

  /** A path that begins with a directory has a parent that does. */
  lemma {:induction false} ParentKeepsDirectory(path: string, directory: string)
    requires directory <= path && directory != "" && directory[|directory| - 1] == '/'
    ensures directory <= Parent(path)
  {
    if |path| > |directory| && path[|path| - 1] != '/' {
      ParentKeepsDirectory(path[..|path| - 1], directory);
    }
  }

  /** The id is in every path that generateDeployPath builds. */
  lemma DeployPathHasId(home: string, id: string, path: string)
    ensures Contains(DeployPath(home, id, path), VENDOR_PREFIX + "_" + id)
  {
    var front := Slash(home) + JoinSlash(Strip(Components(Parent(path))));
    ContainsPart(front, VENDOR_PREFIX + "_" + id, "_" + Filename(path));
    assert DeployPath(home, id, path) == front + (VENDOR_PREFIX + "_" + id) + ("_" + Filename(path));
  }

  /** The parent of an entry without a leading "usr/share". */
  function Directory(path: string): seq<string> { Strip(Components(Parent(path))) }

  /** An entry is deployed into a managed directory exactly when its parent, without a leading
      "usr/share", begins with one. */
  predicate ManagedEntry(path: string) {
    var rel := Directory(path);
    rel != [] && (rel[0] == "applications" || rel[0] == "icons"
                  || (|rel| >= 2 && rel[0] == "mime" && rel[1] == "packages"))
  }

  /** Each of the managed directories receives exactly the entries of that directory. */
  lemma DeployedUnderExactly(home: string, id: string, path: string)
    ensures var rel := Directory(path);
            && (Slash(home) + APPLICATIONS <= DeployPath(home, id, path) <==> rel != [] && rel[0] == "applications")
            && (Slash(home) + ICONS <= DeployPath(home, id, path) <==> rel != [] && rel[0] == "icons")
            && (Slash(home) + MIME <= DeployPath(home, id, path)
                <==> |rel| >= 2 && rel[0] == "mime" && rel[1] == "packages")
  {
    hide Components, FileNameFor, Slash, JoinSlash, Strip;
    var rel, name := Directory(path), FileNameFor(id, path);
    ComponentsAre(Parent(path));
    StripKeepsComponents(Components(Parent(path)));
    assert DeployPath(home, id, path) == Slash(home) + (JoinSlash(rel) + name);
    forall d | d in {APPLICATIONS, ICONS, MIME}
      ensures Slash(home) + d <= DeployPath(home, id, path) <==> d <= JoinSlash(rel) + name
    {
      PrefixUnder(Slash(home), d, JoinSlash(rel) + name);
    }
    NameHasVendor(id, path);
    if rel == [] {
      JoinNothing(rel, name);
      VendorIsNoDirectory(name);
    } else {
      assert rel[0] in rel;
      FirstOfJoined(rel, name);
      var rest := JoinSlash(rel[1..]) + name;
      FirstDirectory("applications", rel[0], rest);
      FirstDirectory("icons", rel[0], rest);
      MimeDirectory(rel, name);
    }
  }

  lemma DeployedIntoManagedExactly(home: string, id: string, path: string)
    ensures Managed(home, DeployPath(home, id, path)) <==> ManagedEntry(path)
  {
    hide Directory, DeployPath, Slash;
    DeployedUnderExactly(home, id, path);
  }

  /** The managed directories have no path in common. */
  lemma DirectoriesAreDisjoint(home: string, p: string)
    ensures !(Slash(home) + APPLICATIONS <= p && Slash(home) + ICONS <= p)
    ensures !(Slash(home) + APPLICATIONS <= p && Slash(home) + MIME <= p)
    ensures !(Slash(home) + ICONS <= p && Slash(home) + MIME <= p)
  {
    hide Slash;
    var n := |Slash(home)|;
    assert (Slash(home) + APPLICATIONS)[n] == 'a';
    assert (Slash(home) + ICONS)[n] == 'i';
    assert (Slash(home) + MIME)[n] == 'm';
  }

  lemma ComponentsAre(s: string)
    ensures AllComponents(Components(s))
  {
    SplitGivesComponents(s, "");
  }

  lemma PrefixUnder(a: string, x: string, y: string)
    ensures a + x <= a + y <==> x <= y
  {
    if a + x <= a + y {
      assert (a + y)[..|a + x|] == a + x;
      assert y[..|x|] == (a + y)[|a|..|a + x|] == (a + x)[|a|..] == x;
    }
  }

  lemma {:induction false} StripKeepsComponents(components: seq<string>)
    requires AllComponents(components)
    ensures AllComponents(Strip(components))
  {
    if |components| >= 2 && components[0] == "usr" && components[1] == "share" {
      StripKeepsComponents(components[2..]);
    }
  }

  lemma NameHasVendor(id: string, path: string)
    ensures VENDOR_PREFIX + "_" <= FileNameFor(id, path)
  {
  }

  lemma VendorIsNoDirectory(name: string)
    requires VENDOR_PREFIX + "_" <= name
    ensures !(APPLICATIONS <= name) && !(ICONS <= name) && !(MIME <= name)
    ensures !("packages/" <= name)
  {
    assert name[0] == (VENDOR_PREFIX + "_")[0] == 'a' && name[3] == (VENDOR_PREFIX + "_")[3] == 'i';
    assert APPLICATIONS[3] == 'l' && ICONS[0] == 'i' && MIME[0] == 'm' && "packages/"[0] == 'p';
  }

  lemma FirstOfJoined(rel: seq<string>, name: string)
    requires rel != []
    ensures JoinSlash(rel) + name == rel[0] + "/" + (JoinSlash(rel[1..]) + name)
  {
    hide JoinSlash;
    assert [rel[0]] + rel[1..] == rel;
    JoinFront(rel[0], rel[1..]);
    assert rel[0] + "/" + JoinSlash(rel[1..]) + name == rel[0] + "/" + (JoinSlash(rel[1..]) + name);
  }

  lemma FirstDirectory(d: string, c: string, rest: string)
    requires SlashFree(d) && SlashFree(c)
    ensures d + "/" <= c + "/" + rest <==> d == c
  {
    var s := c + "/" + rest;
    assert s[|c|] == '/' && (d + "/")[|d|] == '/';
    assert forall i | 0 <= i < |c| :: s[i] == c[i];
    assert forall i | 0 <= i < |d| :: (d + "/")[i] == d[i];
    if d + "/" <= s {
      assert |d| == |c|;
      assert d == s[..|d|] == c;
    }
  }

  lemma DirectoryThen(d: string, x: string, c: string, rest: string)
    requires SlashFree(d) && SlashFree(c)
    ensures d + "/" + x <= c + "/" + rest <==> d == c && x <= rest
  {
    FirstDirectory(d, c, rest);
    if d + "/" + x <= c + "/" + rest {
      assert d + "/" <= d + "/" + x;
    }
    if d == c {
      PrefixUnder(d + "/", x, rest);
    }
  }

  lemma MimeDirectory(rel: seq<string>, name: string)
    requires rel != [] && AllComponents(rel) && VENDOR_PREFIX + "_" <= name
    ensures MIME <= JoinSlash(rel) + name <==> |rel| >= 2 && rel[0] == "mime" && rel[1] == "packages"
  {
    hide JoinSlash;
    assert rel[0] in rel;
    FirstOfJoined(rel, name);
    MimeIs();
    DirectoryThen("mime", "packages/", rel[0], JoinSlash(rel[1..]) + name);
    PackagesDirectory(rel, name);
  }

  lemma PackagesDirectory(rel: seq<string>, name: string)
    requires rel != [] && AllComponents(rel) && VENDOR_PREFIX + "_" <= name
    ensures "packages/" <= JoinSlash(rel[1..]) + name <==> |rel| >= 2 && rel[1] == "packages"
  {
    hide JoinSlash;
    if |rel| == 1 {
      JoinNothing(rel[1..], name);
      VendorIsNoDirectory(name);
    } else {
      assert rel[1] in rel;
      MimeIs();
      FirstOfJoined(rel[1..], name);
      FirstDirectory("packages", rel[1], JoinSlash(rel[1..][1..]) + name);
    }
  }

  lemma MimeIs()
    ensures MIME == "mime" + "/" + "packages/" && "packages" + "/" == "packages/"
    ensures SlashFree("mime") && SlashFree("packages")
  {
  }

  lemma JoinNothing(components: seq<string>, name: string)
    requires components == []
    ensures JoinSlash(components) + name == name
  {
  }

  lemma UsrShareComponents(c: string, rest: string)
    requires IsComponent(c)
    ensures Components("usr/share/" + c + "/" + rest) == ["usr", "share"] + ([c] + Components(rest))
  {
    hide Components;
    SplitComponent(c, rest);
    SplitComponent("share", c + "/" + rest);
    SplitComponent("usr", "share/" + c + "/" + rest);
    assert "usr/share/" + c + "/" + rest == "usr" + "/" + ("share/" + c + "/" + rest);
    assert "share/" + c + "/" + rest == "share" + "/" + (c + "/" + rest);
    assert ["usr"] + (["share"] + ([c] + Components(rest))) == ["usr", "share"] + ([c] + Components(rest));
  }

  lemma StripUsrShare(components: seq<string>)
    ensures Strip(["usr", "share"] + components) == Strip(components)
  {
    assert (["usr", "share"] + components)[2..] == components;
  }

  const USR_SHARE_ICONS := "usr/share/icons/"
  const USR_SHARE_MIME := "usr/share/mime/packages/"

  /** Entries below usr/share/icons/ and usr/share/mime/packages/ are such entries. */
  lemma IconEntryIsManaged(path: string)
    requires USR_SHARE_ICONS <= path
    ensures ManagedEntry(path)
    ensures Directory(path) != [] && Directory(path)[0] == "icons"
  {
    hide Components;
    ParentKeepsDirectory(path, USR_SHARE_ICONS);
    var rest := Parent(path)[|USR_SHARE_ICONS|..];
    assert Parent(path) == "usr/share/" + "icons" + "/" + rest;
    UsrShareComponents("icons", rest);
    StripUsrShare(["icons"] + Components(rest));
  }

  lemma MimeEntryIsManaged(path: string)
    requires USR_SHARE_MIME <= path
    ensures ManagedEntry(path)
    ensures |Directory(path)| >= 2 && Directory(path)[0] == "mime" && Directory(path)[1] == "packages"
  {
    hide Components;
    ParentKeepsDirectory(path, USR_SHARE_MIME);
    var rest := Parent(path)[|USR_SHARE_MIME|..];
    assert Parent(path) == "usr/share/" + "mime" + "/" + ("packages/" + rest);
    UsrShareComponents("mime", "packages/" + rest);
    SplitComponent("packages", rest);
    assert "packages/" + rest == "packages" + "/" + rest;
    StripUsrShare(["mime"] + (["packages"] + Components(rest)));
  }

  const DIR_ICONS := "icons/hicolor/"

  /** So is the path of the fallback icon, icons/hicolor/<size>/apps/<name>. */
  lemma DirIconIsManaged(path: string)
    requires DIR_ICONS <= path
    ensures ManagedEntry(path)
    ensures Directory(path) != [] && Directory(path)[0] == "icons"
  {
    hide Components;
    ParentKeepsDirectory(path, DIR_ICONS);
    var rest := Parent(path)[|DIR_ICONS|..];
    assert Parent(path) == "icons" + "/" + ("hicolor" + "/" + rest);
    SplitComponent("icons", "hicolor" + "/" + rest);
  }

  // buildDesktopFilePath

  function DesktopFilePath(home: string, id: string, trimmedName: string): string {
    Append(Append(home, "applications"),
           VENDOR_PREFIX + "_" + id + "-" + StringSanitizer.Sanitized(trimmedName) + ".desktop")
  }

  function DesktopFileName(id: string, trimmedName: string): string {
    VENDOR_PREFIX + "_" + id + ("-" + StringSanitizer.Sanitized(trimmedName) + ".desktop")
  }

  lemma DesktopFileIs(home: string, id: string, trimmedName: string)
    requires home != ""
    ensures DesktopFilePath(home, id, trimmedName) == Slash(home) + APPLICATIONS + DesktopFileName(id, trimmedName)
  {
    hide StringSanitizer.Sanitized, Append, Slash;
    var name := VENDOR_PREFIX + "_" + id + "-" + StringSanitizer.Sanitized(trimmedName) + ".desktop";
    DirectoryName(home, "applications", name);
    assert name == DesktopFileName(id, trimmedName);
    assert "applications" + "/" == APPLICATIONS;
  }

  /** The desktop file lies directly in the applications directory, and its name has the id. */
  lemma DesktopFileIsManaged(home: string, id: string, trimmedName: string)
    requires home != ""
    ensures Managed(home, DesktopFilePath(home, id, trimmedName))
    ensures Contains(DesktopFilePath(home, id, trimmedName), VENDOR_PREFIX + "_" + id)
    ensures Slash(home) + APPLICATIONS <= DesktopFilePath(home, id, trimmedName)
    ensures SlashFree(id) ==> SlashFree(DesktopFilePath(home, id, trimmedName)[|Slash(home) + APPLICATIONS|..])
  {
    hide StringSanitizer.Sanitized, Contains, Slash, SlashFree, DesktopFilePath, DesktopFileName;
    var directory, name := Slash(home) + APPLICATIONS, DesktopFileName(id, trimmedName);
    DesktopFileIs(home, id, trimmedName);
    DesktopFileNameIs(directory, id, trimmedName);
    assert (directory + name)[|directory|..] == name;
  }

  lemma DesktopFileNameIs(directory: string, id: string, trimmedName: string)
    ensures Contains(directory + DesktopFileName(id, trimmedName), VENDOR_PREFIX + "_" + id)
    ensures SlashFree(id) ==> SlashFree(DesktopFileName(id, trimmedName))
  {
    hide Contains, StringSanitizer.Sanitized;
    var hint, rest := VENDOR_PREFIX + "_" + id, "-" + StringSanitizer.Sanitized(trimmedName) + ".desktop";
    ContainsPart(directory, hint, rest);
    assert directory + (hint + rest) == directory + hint + rest;
    StringSanitizer.SanitizedIsSafe(trimmedName);
  }

  lemma DirectoryName(home: string, directory: string, name: string)
    requires home != "" && directory != "" && directory[|directory| - 1] != '/'
    ensures Append(Append(home, directory), name) == Slash(home) + (directory + "/") + name
  {
    assert Append(home, directory) == Slash(home) + directory;
    assert Slash(home) + directory + "/" == Slash(home) + (directory + "/");
  }

  // What the paths look like

  lemma {:induction false} ParentOf(directory: string, name: string)
    requires directory != "" && directory[|directory| - 1] == '/' && SlashFree(name)
    ensures Parent(directory + name) == directory && Filename(directory + name) == name
  {
    var path := directory + name;
    if name == "" {
      assert path == directory;
    } else {
      ParentOf(directory, name[..|name| - 1]);
      assert path[..|path| - 1] == directory + name[..|name| - 1];
      assert name == name[..|name| - 1] + [name[|name| - 1]];
      assert path[..|path| - |name|] == directory;
    }
  }

  /** An entry of a directory is deployed under its own name behind the id, and what precedes
      it is a directory. */
  lemma DeployPathOf(home: string, id: string, directory: string, name: string)
    requires home != "" && SlashFree(name)
    ensures var front := Slash(home) + JoinSlash(Strip(Components(directory + "/")));
            && DeployPath(home, id, directory + "/" + name) == front + ("appimagekit_" + id + "_" + name)
            && front[|front| - 1] == '/'
  {
    hide Components, Strip, Filename;
    ParentOf(directory + "/", name);
    JoinSlashEnds(Strip(Components(directory + "/")));
    assert Slash(home)[|Slash(home)| - 1] == '/';
    assert FileNameFor(id, directory + "/" + name) == "appimagekit_" + id + "_" + name;
  }

  lemma {:induction false} FilenameIsSlashFree(path: string)
    ensures SlashFree(Filename(path))
  {
    if path != "" && path[|path| - 1] != '/' {
      FilenameIsSlashFree(path[..|path| - 1]);
    }
  }

  /** Entries that share a deploy path have the same name and come from the same directory. */
  lemma SameDeployPath(home: string, id: string, p: string, q: string)
    requires SlashFree(id) && DeployPath(home, id, p) == DeployPath(home, id, q)
    ensures Filename(p) == Filename(q) && Directory(p) == Directory(q)
  {
    hide Components, Strip, Filename, Slash, JoinSlash;
    DeployedAs(id, p);
    DeployedAs(id, q);
    var a, b := JoinSlash(Directory(p)) + FileNameFor(id, p), JoinSlash(Directory(q)) + FileNameFor(id, q);
    assert DeployPath(home, id, p) == Slash(home) + a && DeployPath(home, id, q) == Slash(home) + b;
    assert a == (Slash(home) + a)[|Slash(home)|..] && b == (Slash(home) + b)[|Slash(home)|..];
    LastOfTwo(Directory(p), FileNameFor(id, p), Directory(q), FileNameFor(id, q));
    var front := "appimagekit_" + id + "_";
    assert Filename(p) == FileNameFor(id, p)[|front|..] && Filename(q) == FileNameFor(id, q)[|front|..];
  }

  lemma DeployedAs(id: string, p: string)
    requires SlashFree(id)
    ensures Components(JoinSlash(Directory(p)) + FileNameFor(id, p)) == Directory(p) + [FileNameFor(id, p)]
    ensures FileNameFor(id, p) == "appimagekit_" + id + "_" + Filename(p)
  {
    hide Components, Strip, Filename, JoinSlash;
    ComponentsAre(Parent(p));
    StripKeepsComponents(Components(Parent(p)));
    FilenameIsSlashFree(p);
    SplitJoined(Directory(p), FileNameFor(id, p));
    OneComponent(FileNameFor(id, p));
  }

  lemma OneComponent(name: string)
    requires IsComponent(name)
    ensures Components(name) == [name]
  {
    SplitName(name, "", "");
    assert name + "" == name && "" + name == name;
  }

  lemma LastOfTwo<T>(a: seq<T>, x: T, b: seq<T>, y: T)
    requires a + [x] == b + [y]
    ensures a == b && x == y
  {
    assert a == (a + [x])[..|a|] && x == (a + [x])[|a|];
    assert b == (b + [y])[..|b|] && y == (b + [y])[|b|];
  }

  lemma JoinedEmpty()
    ensures JoinSlash([]) == ""
  {
  }

  lemma NotUsrStays(rel: seq<string>)
    requires rel != [] && rel[0] != "usr"
    ensures Strip(rel) == rel
  {
  }

  /** An entry below usr/share keeps its directory and its name, with the id in front. */
  lemma DeployPathOfShare(home: string, id: string, rel: seq<string>, name: string)
    requires home != "" && AllComponents(rel) && rel != [] && rel[0] != "usr" && SlashFree(name)
    ensures DeployPath(home, id, "usr/share/" + (JoinSlash(rel) + name))
         == Slash(home) + (JoinSlash(rel) + ("appimagekit_" + id + "_" + name))
  {
    hide Components, Strip, JoinSlash, Slash, Filename;
    var directory := "usr/share/" + JoinSlash(rel);
    JoinSlashEnds(rel);
    assert directory + name == "usr/share/" + (JoinSlash(rel) + name);
    ParentOf(directory, name);
    ShareSplits(rel);
    StripUsrShare(rel);
    NotUsrStays(rel);
    assert FileNameFor(id, directory + name) == "appimagekit_" + id + "_" + name;
  }

  /** So does one that is not below usr/share. */
  lemma DeployPathOfOther(home: string, id: string, rel: seq<string>, name: string)
    requires home != "" && AllComponents(rel) && rel != [] && rel[0] != "usr" && SlashFree(name)
    ensures DeployPath(home, id, JoinSlash(rel) + name)
         == Slash(home) + (JoinSlash(rel) + ("appimagekit_" + id + "_" + name))
  {
    hide Components, Strip, JoinSlash, Slash, Filename;
    JoinSlashEnds(rel);
    ParentOf(JoinSlash(rel), name);
    SplitJoined(rel, "");
    SplitNothing();
    assert JoinSlash(rel) + "" == JoinSlash(rel) && rel + [] == rel;
    NotUsrStays(rel);
    assert FileNameFor(id, JoinSlash(rel) + name) == "appimagekit_" + id + "_" + name;
  }

  lemma ShareSplits(rel: seq<string>)
    requires AllComponents(rel)
    ensures Components("usr/share/" + JoinSlash(rel)) == ["usr", "share"] + rel
  {
    hide Components, JoinSlash;
    var joined := JoinSlash(rel);
    SplitJoined(rel, "");
    SplitNothing();
    assert joined + "" == joined && rel + [] == rel;
    SplitComponent("share", joined);
    SplitComponent("usr", "share/" + joined);
    assert "usr" + "/" + ("share/" + joined) == "usr/share/" + joined && "share" + "/" + joined == "share/" + joined;
    assert ["usr"] + (["share"] + rel) == ["usr", "share"] + rel;
  }

  // Examples

  lemma IconDirectory()
    ensures JoinSlash(["icons", "hicolor", "64x64", "apps"]) == "icons/hicolor/64x64/apps/"
    ensures AllComponents(["icons", "hicolor", "64x64", "apps"])
  {
    hide JoinSlash;
    JoinFront("icons", ["hicolor", "64x64", "apps"]);
    JoinFront("hicolor", ["64x64", "apps"]);
    JoinFront("64x64", ["apps"]);
    JoinFront("apps", []);
    JoinedEmpty();
    assert ["icons"] + ["hicolor", "64x64", "apps"] == ["icons", "hicolor", "64x64", "apps"];
    assert ["hicolor"] + ["64x64", "apps"] == ["hicolor", "64x64", "apps"];
    assert ["64x64"] + ["apps"] == ["64x64", "apps"] && ["apps"] + [] == ["apps"];
    assert JoinSlash(["apps"]) == "apps/";
    assert JoinSlash(["64x64", "apps"]) == "64x64/apps/";
    assert JoinSlash(["hicolor", "64x64", "apps"]) == "hicolor/64x64/apps/";
  }

  lemma MimePackages()
    ensures JoinSlash(["mime", "packages"]) == "mime/packages/" && AllComponents(["mime", "packages"])
  {
    hide JoinSlash;
    JoinFront("mime", ["packages"]);
    JoinFront("packages", []);
    JoinedEmpty();
    assert ["mime"] + ["packages"] == ["mime", "packages"] && ["packages"] + [] == ["packages"];
    assert JoinSlash(["packages"]) == "packages/";
  }

  /** The deploy path of usr/share/icons/hicolor/64x64/apps/<name> */
  lemma IconExample(home: string, id: string, name: string)
    requires home != "" && SlashFree(name)
    ensures DeployPath(home, id, "usr/share/" + ("icons/hicolor/64x64/apps/" + name))
         == Slash(home) + ("icons/hicolor/64x64/apps/" + ("appimagekit_" + id + "_" + name))
  {
    hide DeployPath, JoinSlash, Slash;
    IconDirectory();
    DeployPathOfShare(home, id, ["icons", "hicolor", "64x64", "apps"], name);
  }

  /** The deploy path of usr/share/mime/packages/<name> */
  lemma MimeExample(home: string, id: string, name: string)
    requires home != "" && SlashFree(name)
    ensures DeployPath(home, id, "usr/share/" + ("mime/packages/" + name))
         == Slash(home) + ("mime/packages/" + ("appimagekit_" + id + "_" + name))
  {
    hide DeployPath, JoinSlash, Slash;
    MimePackages();
    DeployPathOfShare(home, id, ["mime", "packages"], name);
  }

  /** The desktop file of an application called "My App" */
  lemma DesktopFileExample(home: string, id: string)
    requires home != ""
    ensures DesktopFilePath(home, id, "My App") == Slash(home) + ("applications/" + ("appimagekit_" + id + "-My_App.desktop"))
  {
    hide Slash, StringSanitizer.Sanitized, DesktopFilePath;
    SanitizedExample();
    DesktopFileIs(home, id, "My App");
    assert DesktopFileName(id, "My App") == "appimagekit_" + id + "-My_App.desktop";
  }

  lemma SanitizedExample()
    ensures StringSanitizer.Sanitized("My App") == "My_App"
  {
    hide StringSanitizer.Sanitized;
    assert '\0' !in "My App";
    StringSanitizer.SanitizedAt("My App", 0);
    StringSanitizer.SanitizedAt("My App", 1);
    StringSanitizer.SanitizedAt("My App", 2);
    StringSanitizer.SanitizedAt("My App", 3);
    StringSanitizer.SanitizedAt("My App", 4);
    StringSanitizer.SanitizedAt("My App", 5);
  }

  lemma SlashOf(home: string)
    requires home != "" && home[|home| - 1] != '/'
    ensures Slash(home) == home + "/"
  {
    assert home + "/" + "" == home + "/";
  }
}
