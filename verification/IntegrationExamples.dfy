/** Which entries a registration picks, and registrations of small AppImages in full. */
module IntegrationExamples {
  import opened Payload
  import opened Files
  import opened DeployPaths
  import opened PayloadEntriesCache
  import opened ResourcesExtractor
  import opened ExtractToTheorems
  import opened IntegrationManager
  import opened IntegrationTheorems
  import ExtractTheorems
  import Hashlib
  import StringSanitizer

  // The predicates on entry paths, in terms of the strings

  predicate Around(s: string, a: string, sub: string, b: string) { s == a + sub + b }

  lemma ContainsExactly(s: string, sub: string)
    ensures Contains(s, sub) <==> exists a, b :: Around(s, a, sub, b)
  {
    if i :| 0 <= i <= |s| && At(s, sub, i) {
      assert s == s[..i] + s[i..i + |sub|] + s[i + |sub|..];
      assert Around(s, s[..i], sub, s[i + |sub|..]);
    }
    if a, b :| Around(s, a, sub, b) {
      ContainsPart(a, sub, b);
    }
  }

  lemma IconFilesAre(p: string)
    ensures IsIconFile(p) <==> exists a, b :: Around(p, a, "usr/share/icons", b)
  {
    ContainsExactly(p, "usr/share/icons");
  }

  lemma MainDesktopFilesAre(p: string)
    ensures IsMainDesktopFile(p) <==> '/' !in p && exists a, b :: Around(p, a, ".desktop", b)
  {
    ContainsExactly(p, ".desktop");
  }

  lemma MimeFilesAre(p: string)
    ensures IsMimeFile(p) <==> exists name :: name != "" && Around(p, "usr/share/mime/packages/", name, ".xml")
  {
    var prefix := "usr/share/mime/packages/";
    if IsMimeFile(p) {
      var name := p[|prefix|..|p| - 4];
      assert p == p[..|prefix|] + name + p[|p| - 4..];
      assert Around(p, prefix, name, ".xml");
    }
    if name :| name != "" && Around(p, prefix, name, ".xml") {
      assert p[|p| - 4..] == ".xml" && prefix <= p;
    }
  }

  /** The entries that are deployed: the icons that have the name in their path, and the mime
      packages. */
  lemma DeployedEntriesAre(payload: seq<Entry>, icon: string, p: string)
    ensures p in IconPaths(payload, icon)
            <==> && (exists e <- payload :: e.path == p)
                 && (exists a, b :: Around(p, a, "usr/share/icons", b)) && exists a, b :: Around(p, a, icon, b)
    ensures p in MimePaths(payload)
            <==> && (exists e <- payload :: e.path == p)
                 && exists name :: name != "" && Around(p, "usr/share/mime/packages/", name, ".xml")
  {
    hide IsMimeFile, IsIconFile, Contains;
    TypesAreOfLastEntries(payload, p);
    IconFilesAre(p);
    MimeFilesAre(p);
    ContainsExactly(p, icon);
  }

  /** The desktop entry is read from the first main desktop file in the payload. */
  lemma {:induction false} DesktopEntryIsFirst(payload: seq<Entry>, i: nat)
    requires i < |payload| && IsMainDesktopFile(payload[i].path)
    requires forall j | 0 <= j < i :: !IsMainDesktopFile(payload[j].path)
    ensures DesktopEntryPath(payload) == Some(payload[i].path)
  {
    hide IsMainDesktopFile;
    if i > 0 {
      assert forall j | 0 <= j < i - 1 :: payload[1..][j] == payload[j + 1];
      DesktopEntryIsFirst(payload[1..], i - 1);
    }
  }

  // Extraction of one entry, and of none

  lemma {:induction false} PlanOfOne(payload: seq<Entry>, k: string, d: string, i: nat)
    requires i < |payload| && payload[i].path == k
    requires forall j | 0 <= j < |payload| && j != i :: payload[j].path != k
    ensures ExtractPlan(payload, map[k := d]) == [Write(d, payload[i].data, EXTRACTION)]
  {
    var front := payload[..|payload| - 1];
    if i < |payload| - 1 {
      PlanOfOne(front, k, d, i);
    } else {
      PlanOfNone(front, map[k := d]);
    }
  }

  lemma {:induction false} PlanOfNone(payload: seq<Entry>, chosen: map<string, string>)
    requires forall e <- payload :: e.path !in chosen
    ensures ExtractPlan(payload, chosen) == []
  {
    if payload != [] {
      PlanOfNone(payload[..|payload| - 1], chosen);
    }
  }

  lemma ExtractionOfOne(payload: seq<Entry>, k: string, d: string, i: nat)
    requires i < |payload| && payload[i].path == k && payload[i].kind != LINK
    requires forall j | 0 <= j < |payload| && j != i :: payload[j].path != k
    ensures ExtractionOf(payload, map[k := d]) == Outcome([Write(d, payload[i].data, EXTRACTION)], true)
  {
    hide ExtractPlan, IsChosen;
    var ix, targets := IndexOf(payload), map[k := d];
    assert LastEntry(payload, i, k);
    TypesAreOfLastEntries(payload, k);
    assert ix.TargetOf(k) == Ok(k);
    assert targets.Keys == {k};
    OneIsChosen(ix, k, d);
    ChosenIsUnique(ix, targets, targets, Chosen(ix, targets));
    PlanOfOne(payload, k, d, i);
  }

  lemma OneIsChosen(ix: Index, k: string, d: string)
    requires ix.TargetOf(k) == Ok(k)
    ensures IsChosen(ix, map[k := d], map[k := d])
  {
    hide Index.TargetOf;
    assert map[k := d].Keys == {k};
    assert IsWinner(ix, {k}, k, k);
    WinnerGives(ix, map[k := d], k, k);
  }

  lemma ExtractionOfNone(payload: seq<Entry>)
    ensures ExtractionOf(payload, map[]) == Outcome([], true)
  {
    hide ExtractPlan, IsChosen;
    var ix := IndexOf(payload);
    NoneChosen(ix);
    ChosenIsUnique(ix, map[], map[], Chosen(ix, map[]));
    PlanOfNone(payload, map[]);
  }

  // An AppImage with an icon and a mime package

  const ICON := "usr/share/" + ("icons/hicolor/64x64/apps/" + "app.png")
  const MIME_PACKAGE := "usr/share/" + ("mime/packages/" + "app.xml")

  const SAMPLE := AppImage("/a.AppImage",
    [Entry("app.desktop", REGULAR, "", "d"), Entry(ICON, REGULAR, "", "i"), Entry(MIME_PACKAGE, REGULAR, "", "x")])

  const SAME: string -> string := p => p

  /** A system that reads this entry from the desktop file of the examples, and this icon from
      their image. */
  function EnvironmentOf(entry: Option<DesktopEntry>, icon: Option<Icon>): Environment {
    Environment(data => if data == "d" then entry else None, data => if data == "i" then icon else None, SAME)
  }

  const ENTRY := DesktopEntry(Some("My App"), "app", false, Some("e"))

  function Id(): string { Hashlib.IdOf("/a.AppImage", SAME) }

  function IconTarget(home: string): string { Slash(home) + ("icons/hicolor/64x64/apps/" + ("appimagekit_" + Id() + "_" + "app.png")) }

  function DesktopTarget(home: string): string { Slash(home) + ("applications/" + ("appimagekit_" + Id() + "-My_App.desktop")) }

  function MimeTarget(home: string): string { Slash(home) + ("mime/packages/" + ("appimagekit_" + Id() + "_" + "app.xml")) }

  lemma SampleTypes()
    ensures TypesOf(SAMPLE.payload) == map["app.desktop" := REGULAR, ICON := REGULAR, MIME_PACKAGE := REGULAR]
    ensures LinksOf(SAMPLE.payload) == map[]
  {
    hide TypesOf, LinksOf, ICON, MIME_PACKAGE;
    var d, i, m := Entry("app.desktop", REGULAR, "", "d"), Entry(ICON, REGULAR, "", "i"), Entry(MIME_PACKAGE, REGULAR, "", "x");
    Appended([], d);
    Appended([] + [d], i);
    Appended([] + [d] + [i], m);
    assert SAMPLE.payload == [] + [d] + [i] + [m];
  }

  lemma IconIs()
    ensures Around(ICON, "", "usr/share/icons", "/hicolor/64x64/apps/app.png")
  {
  }

  lemma IconHasName()
    ensures Around(ICON, "usr/share/icons/hicolor/64x64/", "app", "s/app.png")
  {
  }

  lemma MimePackageIs()
    ensures Around(MIME_PACKAGE, "usr/share/mime/packages/", "app", ".xml") && 'n' !in MIME_PACKAGE
    ensures MIME_PACKAGE[0] == 'u' && MIME_PACKAGE[10] == 'm' && '/' in MIME_PACKAGE
  {
  }

  lemma IconIsNoMimePackage()
    ensures !IsMimeFile(ICON) && !IsMimeFile("app.desktop") && ICON != "app.desktop" && ICON != MIME_PACKAGE
    ensures MIME_PACKAGE != "app.desktop"
  {
    assert ICON[10] == 'i' && USR_SHARE_MIME[10] == 'm' && MIME_PACKAGE[10] == 'm';
    assert "app.desktop"[0] == 'a' && USR_SHARE_MIME[0] == 'u' && ICON[0] == 'u' && MIME_PACKAGE[0] == 'u';
  }

  lemma LacksCharacter(s: string, sub: string, j: nat)
    requires j < |sub| && sub[j] !in s
    ensures !Contains(s, sub)
  {
    forall i | 0 <= i <= |s| ensures !At(s, sub, i) {
      if i + |sub| <= |s| {
        assert s[i..i + |sub|][j] == s[i + j] && s[i + j] in s;
      }
    }
  }

  lemma NoIcons()
    ensures !IsIconFile("app.desktop") && !IsIconFile(MIME_PACKAGE)
  {
    hide MIME_PACKAGE;
    MimePackageIs();
    assert "usr/share/icons"[13] == 'n';
    LacksCharacter(MIME_PACKAGE, "usr/share/icons", 13);
    ContainsNothingLonger("app.desktop", "usr/share/icons");
  }

  lemma SamplePaths()
    ensures IconPaths(SAMPLE.payload, "app") == {ICON} && MimePaths(SAMPLE.payload) == {MIME_PACKAGE}
  {
    hide ICON, MIME_PACKAGE, IsIconFile, IsMimeFile, Contains, TypesOf, LinksOf;
    SampleTypes();
    IconIsNoMimePackage();
    NoIcons();
    IconIsIcon();
    MimePackageIsMime();
  }

  lemma IconIsIcon()
    ensures IsIconFile(ICON) && Contains(ICON, "app")
  {
    hide ICON, IsIconFile, Contains, Around;
    IconIs();
    IconHasName();
    IconFilesAre(ICON);
    ContainsExactly(ICON, "app");
  }

  lemma MimePackageIsMime()
    ensures IsMimeFile(MIME_PACKAGE)
  {
    hide MIME_PACKAGE, IsMimeFile, Around;
    MimePackageIs();
    MimeFilesAre(MIME_PACKAGE);
  }

  lemma DesktopIs()
    ensures IsMainDesktopFile("app.desktop")
  {
    assert Around("app.desktop", "app", ".desktop", "");
    MainDesktopFilesAre("app.desktop");
  }

  lemma SampleEntry(entry: Option<DesktopEntry>, icon: Option<Icon>)
    ensures EntryOf(EnvironmentOf(entry, icon), SAMPLE.payload)
         == if entry.Some? && !entry.value.refusesIntegration then entry else None
  {
    hide ICON, MIME_PACKAGE, IsMainDesktopFile;
    DesktopIs();
    SampleTypes();
    DesktopEntryIsFirst(SAMPLE.payload, 0);
    assert IndexOf(SAMPLE.payload).TargetOf("app.desktop") == Ok("app.desktop");
    assert SAMPLE.payload[0].path == "app.desktop";
  }

  /** What registering it writes, in this order: the icon, the desktop file, the mime package. */
  lemma SamplePlan(home: string)
    requires home != ""
    ensures IntegrationOf(EnvironmentOf(Some(ENTRY), None), home, SAMPLE)
         == Outcome([Write(IconTarget(home), "i", EXTRACTION), Write(DesktopTarget(home), "e", DESKTOP_FILE),
                     Write(MimeTarget(home), "x", EXTRACTION)], true)
  {
    hide DeployPath, DesktopFilePath, Hashlib.IdOf, IconPaths, MimePaths, EntryOf, ExtractionOf, Slash;
    SamplePaths();
    SampleEntry(Some(ENTRY), None);
    SampleExtractions(home);
    DesktopFileExample(home, Id());
  }

  lemma SampleExtractions(home: string)
    requires home != ""
    ensures ExtractionOf(SAMPLE.payload, DeployMap(home, Id(), {ICON})) == Outcome([Write(IconTarget(home), "i", EXTRACTION)], true)
    ensures ExtractionOf(SAMPLE.payload, DeployMap(home, Id(), {MIME_PACKAGE})) == Outcome([Write(MimeTarget(home), "x", EXTRACTION)], true)
  {
    hide DeployPath, Hashlib.IdOf, ExtractionOf, Slash;
    IconExample(home, Id(), "app.png");
    MimeExample(home, Id(), "app.xml");
    IconIsNoMimePackage();
    assert DeployMap(home, Id(), {ICON}) == map[ICON := IconTarget(home)];
    assert DeployMap(home, Id(), {MIME_PACKAGE}) == map[MIME_PACKAGE := MimeTarget(home)];
    ExtractionOfOne(SAMPLE.payload, ICON, IconTarget(home), 1);
    ExtractionOfOne(SAMPLE.payload, MIME_PACKAGE, MimeTarget(home), 2);
  }

  lemma WritesApart(home: string)
    requires home != ""
    ensures IconTarget(home) != DesktopTarget(home) && IconTarget(home) != MimeTarget(home)
    ensures DesktopTarget(home) != MimeTarget(home)
  {
    hide Slash, Hashlib.IdOf;
    var n := |Slash(home)|;
    assert IconTarget(home)[n] == 'i' && DesktopTarget(home)[n] == 'a' && MimeTarget(home)[n] == 'm';
  }

  /** Three writes in turn, of which only the last two may fail. */
  lemma CarryThree(a: Write, b: Write, c: Write, faults: Faults)
    ensures var first := Carry(map[], [a], faults, 0);
            var second := Carry(first.files, [b], faults, 1);
            var third := Carry(second.files, [c], faults, 2);
            Carry(map[], [a, b, c], faults, 0)
            == if first.raised then first else if second.raised then second else third
  {
    hide Carry;
    var first := Carry(map[], [a], faults, 0);
    assert [a, b, c] == [a] + ([b] + [c]);
    CarryConcat(map[], [a], [b] + [c], faults, 0);
    CountOfOne(map[], a, faults, 0);
    CarryConcat(first.files, [b], [c], faults, 1);
    CountOfOne(first.files, b, faults, 1);
  }

  lemma CountOfOne(files: FileMap, w: Write, faults: Faults, count: nat)
    ensures Carry(files, [w], faults, count).count == count + 1
  {
    CarryOne(files, w, faults, count);
  }

  /** One write of each kind, and what becomes of it. */
  lemma OneCarried(files: FileMap, w: Write, faults: Faults, count: nat)
    ensures var p := Carry(files, [w], faults, count);
            && (faults(count) == NONE ==> p.files == files[w.path := w.data] && !p.raised)
            && (faults(count) == NO_DIRECTORY ==> p.files == files && (p.raised <==> w.writer != SAVED_ICON))
            && (faults(count) == NO_PERMISSIONS ==> p.files == files[w.path := w.data] && (p.raised <==> w.writer == DESKTOP_FILE))
            && (faults(count) == NOT_OPENED ==> p.files == files && (p.raised <==> w.writer == DESKTOP_FILE && w.path !in files))
  {
    CarryOne(files, w, faults, count);
    OneWrite(files, w);
  }

  function FaultAt(n: nat, fault: Fault): Faults { m => if m == n then fault else NONE }

  /** Without faults all three files are there. With a directory that cannot be created, or a
      desktop file whose permissions cannot be set, nothing is left of them. */
  lemma SampleRegistered(home: string, fault: Fault, n: nat)
    requires home != "" && n < 3
    ensures var env := EnvironmentOf(Some(ENTRY), None);
            && Succeeds(env, home, SAMPLE, map[], NO_FAULTS, 0)
            && Registered(env, home, SAMPLE, map[], NO_FAULTS, 0)
               == map[IconTarget(home) := "i", DesktopTarget(home) := "e", MimeTarget(home) := "x"]
            && (fault == NO_DIRECTORY || (fault == NO_PERMISSIONS && n == 1) || (fault == NOT_OPENED && n == 1) ==>
                  !Succeeds(env, home, SAMPLE, map[], FaultAt(n, fault), 0)
                  && Registered(env, home, SAMPLE, map[], FaultAt(n, fault), 0) == map[])
  {
    hide Hashlib.IdOf, Slash, IntegrationOf, Carry, Unregistered, HintOf, IconsManaged;
    var env := EnvironmentOf(Some(ENTRY), None);
    var a, b := Write(IconTarget(home), "i", EXTRACTION), Write(DesktopTarget(home), "e", DESKTOP_FILE);
    var c := Write(MimeTarget(home), "x", EXTRACTION);
    SamplePlan(home);
    WritesApart(home);
    SampleIsManaged();
    SampleCarried(a, b, c, NO_FAULTS);
    SampleCarried(a, b, c, FaultAt(n, fault));
    NothingOwned(home, HintOf(env, SAMPLE.path));
    UnregisterIsIdentityExactly(map[], home, HintOf(env, SAMPLE.path));
    RegistrationIsTransactional(env, home, SAMPLE, map[], FaultAt(n, fault), 0);
  }

  lemma SampleCarried(a: Write, b: Write, c: Write, faults: Faults)
    requires a.path != b.path && a.writer == EXTRACTION && b.writer == DESKTOP_FILE && c.writer == EXTRACTION
    ensures var p := Carry(map[], [a, b, c], faults, 0);
            && (faults(0) == faults(1) == faults(2) == NONE ==>
                  p.files == map[a.path := a.data, b.path := b.data, c.path := c.data] && !p.raised)
            && (faults(0) == NO_DIRECTORY ==> p.raised)
            && (faults(0) == NONE && faults(1) in {NO_DIRECTORY, NO_PERMISSIONS, NOT_OPENED} ==> p.raised)
            && (faults(0) == faults(1) == NONE && faults(2) == NO_DIRECTORY ==> p.raised)
  {
    hide Carry;
    CarryThree(a, b, c, faults);
    var first := Carry(map[], [a], faults, 0);
    OneCarried(map[], a, faults, 0);
    OneCarried(first.files, b, faults, 1);
    OneCarried(Carry(first.files, [b], faults, 1).files, c, faults, 2);
  }

  lemma SampleIsManaged()
    ensures IconsManaged(EnvironmentOf(Some(ENTRY), None), SAMPLE)
  {
    hide ICON, EntryOf, IconPaths, IsWritten, IndexOf, AllResolve, ManagedEntry;
    SampleEntry(Some(ENTRY), None);
    SamplePaths();
    IconIs();
    assert USR_SHARE_ICONS == "usr/share/icons" + "/" && "/hicolor/64x64/apps/app.png"[0] == '/';
    assert USR_SHARE_ICONS <= ICON;
    IconEntryIsManaged(ICON);
  }

  /** What makes an integration fail: no readable desktop entry, one that refuses, no icon name or
      one with a slash; after the icon, no application name or an entry that cannot be edited. */
  lemma SampleFails(home: string, entry: Option<DesktopEntry>)
    requires home != ""
    ensures entry.None? || entry.value.refusesIntegration || entry.value.icon == "" || '/' in entry.value.icon ==>
              IntegrationOf(EnvironmentOf(entry, None), home, SAMPLE) == Outcome([], false)
    ensures entry.Some? && !entry.value.refusesIntegration && entry.value.icon == "app"
            && (entry.value.name.None? || entry.value.edited.None?) ==>
              IntegrationOf(EnvironmentOf(entry, None), home, SAMPLE)
              == Outcome([Write(IconTarget(home), "i", EXTRACTION)], false)
  {
    hide DeployPath, DesktopFilePath, Hashlib.IdOf, IconPaths, MimePaths, EntryOf, ExtractionOf, Slash;
    SamplePaths();
    SampleEntry(entry, None);
    SampleExtractions(home);
  }

  // An AppImage whose only icon is .DirIcon

  const PLAIN := AppImage("/a.AppImage", [Entry("app.desktop", REGULAR, "", "d"), Entry(".DirIcon", REGULAR, "", "i")])

  lemma PlainPaths()
    ensures IconPaths(PLAIN.payload, "app") == {} && MimePaths(PLAIN.payload) == {}
    ensures TypesOf(PLAIN.payload) == map["app.desktop" := REGULAR, ".DirIcon" := REGULAR] && LinksOf(PLAIN.payload) == map[]
  {
    hide TypesOf, LinksOf, IsIconFile, Contains;
    var d, i := Entry("app.desktop", REGULAR, "", "d"), Entry(".DirIcon", REGULAR, "", "i");
    Appended([], d);
    Appended([] + [d], i);
    assert PLAIN.payload == [] + [d] + [i];
    NoIcons();
    ShortIsNoIcon();
    assert "app.desktop"[0] == 'a' && ".DirIcon"[0] == '.' && USR_SHARE_MIME[0] == 'u';
  }

  lemma ShortIsNoIcon()
    ensures !IsIconFile(".DirIcon")
  {
    ContainsNothingLonger(".DirIcon", "usr/share/icons");
  }

  const IMAGE := Icon("64x64", ".png", "image")

  lemma DirIconExample(home: string)
    requires home != ""
    ensures DeployPath(home, Id(), DirIconPath(IMAGE, "app")) == IconTarget(home)
  {
    hide DeployPath, JoinSlash, Slash, Hashlib.IdOf, StringSanitizer.Sanitized;
    IconDirectory();
    SanitizedApp();
    DeployPathOfOther(home, Id(), ["icons", "hicolor", "64x64", "apps"], "app.png");
    assert DirIconPath(IMAGE, "app") == "icons/hicolor/64x64/apps/" + "app.png";
  }

  lemma SanitizedApp()
    ensures StringSanitizer.Sanitized("app") == "app"
  {
    hide StringSanitizer.Sanitized;
    assert '\0' !in "app";
    StringSanitizer.SanitizedAt("app", 0);
    StringSanitizer.SanitizedAt("app", 1);
    StringSanitizer.SanitizedAt("app", 2);
  }

  /** The image made of .DirIcon goes to the place of an icon of its size. */
  lemma PlainPlan(home: string)
    requires home != ""
    ensures IntegrationOf(EnvironmentOf(Some(ENTRY), Some(IMAGE)), home, PLAIN)
         == Outcome([Write(IconTarget(home), "image", SAVED_ICON), Write(DesktopTarget(home), "e", DESKTOP_FILE)], true)
  {
    hide DeployPath, DesktopFilePath, DirIconPath, Hashlib.IdOf, IconPaths, MimePaths, ExtractionOf, IsMainDesktopFile, Slash, TypesOf, LinksOf;
    var ix, payload := IndexOf(PLAIN.payload), PLAIN.payload;
    PlainPaths();
    DesktopIs();
    DesktopEntryIsFirst(payload, 0);
    assert payload[0].path == "app.desktop";
    assert ix.TargetOf("app.desktop") == Ok("app.desktop") && ix.TargetOf(".DirIcon") == Ok(".DirIcon");
    ExtractTheorems.FirstDataIs(payload, 0, "app.desktop");
    ExtractTheorems.FirstDataIs(payload, 1, ".DirIcon");
    DirIconExample(home);
    DesktopFileExample(home, Id());
    assert DeployMap(home, Id(), {}) == map[];
    ExtractionOfNone(payload);
  }

  // Which files unregistering removes

  lemma HintIs(entry: Option<DesktopEntry>, icon: Option<Icon>)
    ensures HintOf(EnvironmentOf(entry, icon), "/a.AppImage") == "appimagekit_" + Id()
  {
    hide Hashlib.IdOf;
    assert VENDOR_PREFIX + "_" == "appimagekit_";
  }

  lemma TargetsAreOwned(home: string)
    requires home != ""
    ensures Owned(home, "appimagekit_" + Id(), IconTarget(home)) && Owned(home, "appimagekit_" + Id(), DesktopTarget(home))
    ensures Owned(home, "appimagekit_" + Id(), MimeTarget(home))
  {
    hide Slash, Hashlib.IdOf, Contains, IconTarget, DesktopTarget, MimeTarget;
    TargetsAreManaged(home);
    TargetsHaveId(home);
  }

  lemma TargetsAreManaged(home: string)
    ensures Slash(home) + ICONS <= IconTarget(home) && Slash(home) + APPLICATIONS <= DesktopTarget(home)
    ensures Slash(home) + MIME <= MimeTarget(home)
  {
    hide Slash, Hashlib.IdOf;
    PrefixUnder(Slash(home), ICONS, "icons/hicolor/64x64/apps/" + ("appimagekit_" + Id() + "_" + "app.png"));
    PrefixUnder(Slash(home), APPLICATIONS, "applications/" + ("appimagekit_" + Id() + "-My_App.desktop"));
    PrefixUnder(Slash(home), MIME, "mime/packages/" + ("appimagekit_" + Id() + "_" + "app.xml"));
  }

  lemma TargetsHaveId(home: string)
    ensures Contains(IconTarget(home), "appimagekit_" + Id()) && Contains(DesktopTarget(home), "appimagekit_" + Id())
    ensures Contains(MimeTarget(home), "appimagekit_" + Id())
  {
    hide Slash, Hashlib.IdOf, Contains;
    HasIdInside(Slash(home), "icons/hicolor/64x64/apps/", "appimagekit_" + Id(), "_" + "app.png");
    HasIdInside(Slash(home), "applications/", "appimagekit_" + Id(), "-My_App.desktop");
    HasIdInside(Slash(home), "mime/packages/", "appimagekit_" + Id(), "_" + "app.xml");
    assert "appimagekit_" + Id() + "_" + "app.png" == "appimagekit_" + Id() + ("_" + "app.png");
    assert "appimagekit_" + Id() + "_" + "app.xml" == "appimagekit_" + Id() + ("_" + "app.xml");
  }

  lemma HasIdInside(home: string, directory: string, hint: string, rest: string)
    ensures Contains(home + (directory + (hint + rest)), hint)
  {
    hide Contains;
    ContainsPart(home + directory, hint, rest);
    assert home + directory + hint + rest == home + (directory + (hint + rest));
  }

  /** The three files are removed, and neither one without the id next to them nor one with the id
      elsewhere. */
  lemma SampleUnregistered(home: string)
    requires home != "" && '_' !in home
    ensures var other, elsewhere := Slash(home) + "applications/other.desktop", Slash(home) + "opt/" + ("appimagekit_" + Id());
            Unregistered(map[IconTarget(home) := "i", DesktopTarget(home) := "e", MimeTarget(home) := "x", other := "o", elsewhere := "s"],
                         home, "appimagekit_" + Id())
            == map[other := "o", elsewhere := "s"]
  {
    hide Slash, Hashlib.IdOf, Owned;
    TargetsAreOwned(home);
    OthersAreNotOwned(home);
  }

  /** The query looks for the desktop file, not for the icon. */
  lemma SampleQuery(home: string)
    requires home != ""
    ensures IsRegistered(map[DesktopTarget(home) := "e"], home, "appimagekit_" + Id())
    ensures !IsRegistered(map[IconTarget(home) := "i"], home, "appimagekit_" + Id())
  {
    hide Slash, Hashlib.IdOf, Append, Contains;
    var files: FileMap, n := map[DesktopTarget(home) := "e"], |Slash(home)|;
    TargetsAreOwned(home);
    DirectoriesAre(home);
    assert Slash(home) + APPLICATIONS <= DesktopTarget(home);
    assert Matches(Append(home, "applications"), "appimagekit_" + Id(), DesktopTarget(home)) && DesktopTarget(home) in files;
    assert IconTarget(home)[n] == 'i' && (Slash(home) + APPLICATIONS)[n] == 'a';
  }

  lemma OthersAreNotOwned(home: string)
    requires home != "" && '_' !in home
    ensures !Owned(home, "appimagekit_" + Id(), Slash(home) + "applications/other.desktop")
    ensures !Owned(home, "appimagekit_" + Id(), Slash(home) + "opt/" + ("appimagekit_" + Id()))
  {
    hide Hashlib.IdOf, Contains;
    var other, elsewhere, n := Slash(home) + "applications/other.desktop", Slash(home) + "opt/" + ("appimagekit_" + Id()), |Slash(home)|;
    assert elsewhere[n] == 'o' && (Slash(home) + ICONS)[n] == 'i' && (Slash(home) + APPLICATIONS)[n] == 'a' && (Slash(home) + MIME)[n] == 'm';
    assert ("appimagekit_" + Id())[11] == '_';
    assert '_' !in other;
    LacksCharacter(other, "appimagekit_" + Id(), 11);
  }
}
