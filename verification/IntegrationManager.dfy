/** src/libappimage/desktop_integration: registering and unregistering AppImages, as changes of
    the files under XDG_DATA_HOME. */
module IntegrationManager {
  import opened Payload
  import opened Files
  import opened DeployPaths
  import opened PayloadEntriesCache
  import opened ResourcesExtractor
  import opened ExtractToTheorems
  import Hashlib
  import LinkChains

  /** What XdgUtils and the desktop entry editor make of a desktop file. The name is trimmed;
      edited is None when the editor throws. */
  datatype DesktopEntry =
    DesktopEntry(name: Option<string>, icon: string, refusesIntegration: bool, edited: Option<Bytes>)

  /** What the icon library makes of image data: the directory of its size, its extension and
      the saved image. */
  datatype Icon = Icon(size: string, extension: string, image: Bytes)

  /** The parts of the system that the library calls. */
  datatype Environment = Environment(
    parse: Bytes -> Option<DesktopEntry>,
    readIcon: Bytes -> Option<Icon>,
    absolute: string -> string)

  datatype AppImage = AppImage(path: string, payload: seq<Entry>) {
    /** The payload can be indexed, see PayloadEntriesCache, and its entry paths are relative. */
    ghost predicate Readable() {
      Terminates(LinksOf(payload)) && "" !in LinksOf(payload) && RelativePaths(payload)
    }
  }

  ghost predicate RelativePaths(payload: seq<Entry>) { forall p <- TypesOf(payload) :: Relative(p) }

  /** generateAppImageId: what unregistering looks for in file paths. */
  function HintOf(env: Environment, path: string): string {
    VENDOR_PREFIX + "_" + Hashlib.IdOf(path, env.absolute)
  }

  // Unregistering

  predicate Matches(dir: string, hint: string, p: string) { dir + "/" <= p && Contains(p, hint) }

  function RemoveMatching(files: FileMap, dir: string, hint: string): FileMap {
    map p | p in files && !Matches(dir, hint, p) :: files[p]
  }

  predicate Owned(home: string, hint: string, p: string) { Managed(home, p) && Contains(p, hint) }

  /** The files without those that carry the id in a managed directory. */
  function Unregistered(files: FileMap, home: string, hint: string): FileMap {
    map p | p in files && !Owned(home, hint, p) :: files[p]
  }

  predicate IsRegistered(files: FileMap, home: string, hint: string) {
    exists p <- files :: Matches(Append(home, "applications"), hint, p)
  }

  lemma DirectoriesAre(home: string)
    requires home != ""
    ensures Append(home, "applications") + "/" == Slash(home) + APPLICATIONS
    ensures Append(home, "icons") + "/" == Slash(home) + ICONS
    ensures Append(home, "mime/packages") + "/" == Slash(home) + MIME
  {
    hide Append, Slash;
    DirectoryPrefix(home, "applications");
    DirectoryPrefix(home, "icons");
    DirectoryPrefix(home, "mime/packages");
    assert "applications" + "/" == APPLICATIONS;
    assert "icons" + "/" == ICONS;
    assert "mime/packages" + "/" == MIME;
  }

  lemma DirectoryPrefix(home: string, directory: string)
    requires home != ""
    ensures Append(home, directory) + "/" == Slash(home) + (directory + "/")
  {
    assert Append(home, directory) == Slash(home) + directory;
    assert Slash(home) + directory + "/" == Slash(home) + (directory + "/");
  }

  lemma RemovedThrice(files: FileMap, home: string, hint: string)
    requires home != ""
    ensures var one := RemoveMatching(files, Append(home, "applications"), hint);
            var two := RemoveMatching(one, Append(home, "icons"), hint);
            RemoveMatching(two, Append(home, "mime/packages"), hint) == Unregistered(files, home, hint)
  {
    hide Append, Slash, Contains;
    DirectoriesAre(home);
  }

  // Registering, as a plan of writes

  predicate IsIconFile(path: string) { Contains(path, "usr/share/icons") }

  predicate IsMimeFile(path: string) {
    USR_SHARE_MIME <= path && |path| >= 4 && path[|path| - 4..] == ".xml" && |path| > |USR_SHARE_MIME| + 4
  }

  predicate IsMainDesktopFile(path: string) { Contains(path, ".desktop") && SlashFree(path) }

  /** The entries that deployIcons picks for an icon name. */
  function IconPaths(payload: seq<Entry>, icon: string): set<string> {
    set p | p in TypesOf(payload) && IsIconFile(p) && Contains(p, icon)
  }

  function MimePaths(payload: seq<Entry>): set<string> {
    set p | p in TypesOf(payload) && IsMimeFile(p)
  }

  function DeployMap(home: string, id: string, paths: set<string>): map<string, string> {
    map p | p in paths :: DeployPath(home, id, p)
  }

  function DesktopEntryPath(payload: seq<Entry>): Option<string> {
    if payload == [] then None
    else if IsMainDesktopFile(payload[0].path) then Some(payload[0].path)
    else DesktopEntryPath(payload[1..])
  }

  // What integrating writes

  /** The writes of a step, and whether it comes to its end when none of them raises an error. */
  datatype Outcome = Outcome(plan: seq<Write>, complete: bool) {
    function Then(next: Outcome): Outcome {
      if complete then Outcome(plan + next.plan, next.complete) else this
    }
  }

  /** The desktop entry of the payload, unless it is missing, malformed or refuses the
      integration. */
  ghost function EntryOf(env: Environment, payload: seq<Entry>): Option<DesktopEntry> {
    match DesktopEntryPath(payload)
    case None => None
    case Some(path) =>
      match Extracted(payload, IndexOf(payload), path)
      case Err(_) => None
      case Ok(data) =>
        match env.parse(data)
        case None => None
        case Some(entry) => if entry.refusesIntegration then None else Some(entry)
  }

  ghost function ExtractionOf(payload: seq<Entry>, targets: map<string, string>): Outcome {
    var ix := IndexOf(payload);
    if AllResolve(ix, targets.Keys) then Outcome(ExtractPlan(payload, Chosen(ix, targets)), true) else Outcome([], false)
  }

  function DirIconPath(icon: Icon, name: string): string {
    DIR_ICONS + (icon.size + "/apps/" + StringSanitizer.Sanitized(name) + icon.extension)
  }

  function DirIconOf(env: Environment, home: string, id: string, name: string, data: Bytes): seq<Write> {
    match env.readIcon(data)
    case None => []
    case Some(icon) => [Write(DeployPath(home, id, DirIconPath(icon, name)), icon.image, SAVED_ICON)]
  }

  /** The icons of usr/share/icons by that name, or else the fallback icon. */
  ghost function IconsOf(env: Environment, home: string, id: string, payload: seq<Entry>, name: string): Outcome {
    if name == "" || !SlashFree(name) then Outcome([], false)
    else if IconPaths(payload, name) != {} then ExtractionOf(payload, DeployMap(home, id, IconPaths(payload, name)))
    else match Extracted(payload, IndexOf(payload), ".DirIcon")
      case Ok(data) => Outcome(DirIconOf(env, home, id, name, data), true)
      case Err(_) => Outcome([], true)
  }

  function DesktopFileOf(home: string, id: string, entry: DesktopEntry): Outcome {
    if entry.name.None? || entry.edited.None? then Outcome([], false)
    else Outcome([Write(DesktopFilePath(home, id, entry.name.value), entry.edited.value, DESKTOP_FILE)], true)
  }

  ghost function MimeOf(home: string, id: string, payload: seq<Entry>): Outcome {
    ExtractionOf(payload, DeployMap(home, id, MimePaths(payload)))
  }

  ghost function IntegrationOf(env: Environment, home: string, app: AppImage): Outcome {
    var id := Hashlib.IdOf(app.path, env.absolute);
    match EntryOf(env, app.payload)
    case None => Outcome([], false)
    case Some(entry) =>
      IconsOf(env, home, id, app.payload, entry.icon)
        .Then(DesktopFileOf(home, id, entry))
        .Then(MimeOf(home, id, app.payload))
  }

  /** An operation has carried out the outcome up to the first exception, and has failed if
      there was one or the outcome is not complete. */
  ghost predicate Ran(o: Outcome, faults: Faults, before: FileMap, countBefore: nat, files: FileMap, count: nat, failed: bool) {
    var p := Carry(before, o.plan, faults, countBefore);
    files == p.files && count == p.count && (failed <==> p.raised || !o.complete)
  }

  lemma RanNothing(complete: bool, faults: Faults, files: FileMap, count: nat)
    ensures Ran(Outcome([], complete), faults, files, count, files, count, !complete)
  {
  }

  /** One step after another that has come to its end. */
  lemma RanThen(a: Outcome, b: Outcome, faults: Faults, before: FileMap, countBefore: nat,
                middle: FileMap, countBetween: nat, files: FileMap, count: nat, failed: bool)
    requires Ran(a, faults, before, countBefore, middle, countBetween, false)
    requires Ran(b, faults, middle, countBetween, files, count, failed)
    ensures Ran(a.Then(b), faults, before, countBefore, files, count, failed)
  {
    hide Carry;
    CarryConcat(before, a.plan, b.plan, faults, countBefore);
  }

  /** A failed step ends the sequence. */
  lemma RanStops(a: Outcome, b: Outcome, faults: Faults, before: FileMap, countBefore: nat, files: FileMap, count: nat)
    requires Ran(a, faults, before, countBefore, files, count, true)
    ensures Ran(a.Then(b), faults, before, countBefore, files, count, true)
  {
    hide Carry;
    CarryConcat(before, a.plan, b.plan, faults, countBefore);
  }

  // Where integrating writes

  ghost predicate AllWithId(hint: string, plan: seq<Write>) { forall w <- plan :: Contains(w.path, hint) }

  ghost predicate AllManaged(home: string, plan: seq<Write>) { forall w <- plan :: Managed(home, w.path) }

  /** Each icon of that name that is written comes from a managed entry. The others of the same
      target do not matter, nor do those that are not extracted at all. */
  ghost predicate DeployedIconsManaged(payload: seq<Entry>, name: string) {
    var ix, icons := IndexOf(payload), IconPaths(payload, name);
    name != "" && SlashFree(name) && AllResolve(ix, icons)
    ==> forall p <- icons | IsWritten(payload, ix, icons, p) :: ManagedEntry(p)
  }

  ghost predicate IconsManaged(env: Environment, app: AppImage) {
    match EntryOf(env, app.payload)
    case None => true
    case Some(entry) => DeployedIconsManaged(app.payload, entry.icon)
  }

  lemma DeploymentWritesExactly(payload: seq<Entry>, home: string, id: string, paths: set<string>, path: string)
    requires AllResolve(IndexOf(payload), paths)
    ensures WritesTo(ExtractionOf(payload, DeployMap(home, id, paths)).plan, path)
            <==> exists p <- paths :: DeployPath(home, id, p) == path && IsWritten(payload, IndexOf(payload), paths, p)
  {
    hide IsChosen, IndexOf, DeployPath, WritesTo, IsWritten;
    var ix, targets := IndexOf(payload), DeployMap(home, id, paths);
    assert targets.Keys == paths;
    ChosenExists(ix, targets);
    PlanWritesExactly(payload, ix, targets, Chosen(ix, targets), path);
  }

  lemma DeploymentHasId(payload: seq<Entry>, home: string, id: string, paths: set<string>)
    ensures AllWithId(VENDOR_PREFIX + "_" + id, ExtractionOf(payload, DeployMap(home, id, paths)).plan)
  {
    hide IndexOf, DeployPath, Contains, ExtractionOf;
    var plan := ExtractionOf(payload, DeployMap(home, id, paths)).plan;
    forall w <- plan ensures Contains(w.path, VENDOR_PREFIX + "_" + id) {
      var p := DeploymentWrites(payload, home, id, paths, w);
      DeployPathHasId(home, id, p);
    }
  }

  /** A deployment writes to the deploy paths of its entries. */
  lemma DeploymentWrites(payload: seq<Entry>, home: string, id: string, paths: set<string>, w: Write) returns (p: string)
    requires w in ExtractionOf(payload, DeployMap(home, id, paths)).plan
    ensures p in paths && w.path == DeployPath(home, id, p)
  {
    hide AllResolve, IndexOf, DeployPath, IsWritten;
    assert DeployMap(home, id, paths).Keys == paths;
    assert WritesTo(ExtractionOf(payload, DeployMap(home, id, paths)).plan, w.path);
    DeploymentWritesExactly(payload, home, id, paths, w.path);
    p :| p in paths && w.path == DeployPath(home, id, p);
  }

  lemma DeploymentIsManagedExactly(payload: seq<Entry>, home: string, id: string, paths: set<string>)
    requires AllResolve(IndexOf(payload), paths)
    ensures AllManaged(home, ExtractionOf(payload, DeployMap(home, id, paths)).plan)
            <==> forall p <- paths | IsWritten(payload, IndexOf(payload), paths, p) :: ManagedEntry(p)
  {
    hide IndexOf, DeployPath, Managed, ManagedEntry, AllResolve, IsWritten, ExtractionOf;
    var plan := ExtractionOf(payload, DeployMap(home, id, paths)).plan;
    forall p <- paths ensures Managed(home, DeployPath(home, id, p)) <==> ManagedEntry(p) {
      DeployedIntoManagedExactly(home, id, p);
    }
    forall path ensures WritesTo(plan, path)
                        <==> exists p <- paths :: DeployPath(home, id, p) == path && IsWritten(payload, IndexOf(payload), paths, p)
    {
      DeploymentWritesExactly(payload, home, id, paths, path);
    }
    if AllManaged(home, plan) {
      forall p <- paths | IsWritten(payload, IndexOf(payload), paths, p) ensures ManagedEntry(p) {
        assert WritesTo(plan, DeployPath(home, id, p));
      }
    } else {
      var w :| w in plan && !Managed(home, w.path);
      assert WritesTo(plan, w.path);
    }
  }

  lemma DirIconIsOwned(home: string, id: string, icon: Icon, name: string)
    ensures var path := DeployPath(home, id, DirIconPath(icon, name));
            Contains(path, VENDOR_PREFIX + "_" + id) && Managed(home, path)
  {
    hide Managed, ManagedEntry, Contains, DeployPath, StringSanitizer.Sanitized;
    var iconPath := DirIconPath(icon, name);
    assert DIR_ICONS <= iconPath;
    DirIconIsManaged(iconPath);
    DeployedIntoManagedExactly(home, id, iconPath);
    DeployPathHasId(home, id, iconPath);
  }

  lemma IconsAreManagedExactly(env: Environment, home: string, id: string, payload: seq<Entry>, name: string)
    ensures AllWithId(VENDOR_PREFIX + "_" + id, IconsOf(env, home, id, payload, name).plan)
    ensures AllManaged(home, IconsOf(env, home, id, payload, name).plan) <==> DeployedIconsManaged(payload, name)
  {
    hide Managed, ManagedEntry, Contains, DeployPath, DirIconPath, IconPaths, IndexOf, Extracted, IsWritten, AllResolve;
    var icons := IconPaths(payload, name);
    DeploymentHasId(payload, home, id, icons);
    assert DeployMap(home, id, icons).Keys == icons;
    if AllResolve(IndexOf(payload), icons) {
      DeploymentIsManagedExactly(payload, home, id, icons);
    }
    forall icon: Icon
      ensures var path := DeployPath(home, id, DirIconPath(icon, name));
              Contains(path, VENDOR_PREFIX + "_" + id) && Managed(home, path)
    {
      DirIconIsOwned(home, id, icon, name);
    }
  }

  lemma MimeIsOwned(home: string, id: string, payload: seq<Entry>)
    ensures AllWithId(VENDOR_PREFIX + "_" + id, MimeOf(home, id, payload).plan)
    ensures AllManaged(home, MimeOf(home, id, payload).plan)
  {
    hide ExtractionOf, ManagedEntry, Managed, Contains, DeployPath, IsMimeFile;
    DeploymentHasId(payload, home, id, MimePaths(payload));
    forall w <- MimeOf(home, id, payload).plan ensures Managed(home, w.path) {
      var p := DeploymentWrites(payload, home, id, MimePaths(payload), w);
      MimeFileIsUnder(p);
      MimeEntryIsManaged(p);
      DeployedIntoManagedExactly(home, id, p);
    }
  }

  lemma MimeFileIsUnder(p: string)
    requires IsMimeFile(p)
    ensures USR_SHARE_MIME <= p
  {
  }

  /** Integrating only writes files whose path has the id, and it writes only into the managed
      directories if and only if the written icons come from managed entries. */
  lemma IntegrationIsManagedExactly(env: Environment, home: string, app: AppImage)
    requires home != ""
    ensures AllWithId(HintOf(env, app.path), IntegrationOf(env, home, app).plan)
    ensures AllManaged(home, IntegrationOf(env, home, app).plan) <==> IconsManaged(env, app)
  {
    hide IconsOf, MimeOf, DeployedIconsManaged, Managed, Contains, EntryOf, DesktopFilePath, Hashlib.IdOf;
    var id := Hashlib.IdOf(app.path, env.absolute);
    if EntryOf(env, app.payload).Some? {
      var entry := EntryOf(env, app.payload).value;
      IconsAreManagedExactly(env, home, id, app.payload, entry.icon);
      MimeIsOwned(home, id, app.payload);
      if entry.name.Some? {
        DesktopFileIsManaged(home, id, entry.name.value);
      }
      var icons, rest := IconsOf(env, home, id, app.payload, entry.icon), IntegrationOf(env, home, app);
      assert forall w <- icons.plan :: w in rest.plan;
    }
  }

  /** An integration that comes to its end leaves a desktop file that the query finds, whatever
      happened to its writes: one that could not be opened fails when its permissions are set. */
  lemma IntegrationRegisters(env: Environment, home: string, app: AppImage, faults: Faults, before: FileMap, count: nat)
    requires home != "" && IntegrationOf(env, home, app).complete
    requires !Carry(before, IntegrationOf(env, home, app).plan, faults, count).raised
    ensures IsRegistered(Carry(before, IntegrationOf(env, home, app).plan, faults, count).files, home, HintOf(env, app.path))
  {
    hide IconsOf, MimeOf, EntryOf, DesktopFilePath, IsRegistered, Apply, Carry, Raises, Surviving, Hashlib.IdOf;
    var id, entry := Hashlib.IdOf(app.path, env.absolute), EntryOf(env, app.payload).value;
    var icons, mime := IconsOf(env, home, id, app.payload, entry.icon).plan, MimeOf(home, id, app.payload).plan;
    var w := Write(DesktopFilePath(home, id, entry.name.value), entry.edited.value, DESKTOP_FILE);
    CarryConcat(before, icons + [w], mime, faults, count);
    CarryConcat(before, icons, [w], faults, count);
    var middle := Carry(before, icons, faults, count);
    DesktopFileExists(middle.files, w, faults, middle.count);
    var last := Carry(middle.files, [w], faults, middle.count);
    CarryKeeps(last.files, mime, faults, last.count, w.path);
    DesktopFileRegisters(Carry(last.files, mime, faults, last.count).files, home, id, entry.name.value);
  }

  lemma DesktopFileExists(files: FileMap, w: Write, faults: Faults, count: nat)
    requires w.writer == DESKTOP_FILE && !Carry(files, [w], faults, count).raised
    ensures w.path in Carry(files, [w], faults, count).files
  {
    CarryOne(files, w, faults, count);
    forall s ensures Apply(files, [s]) == files[s.path := s.data] {
      OneWrite(files, s);
    }
  }

  class IntegrationManager {
    const home: string
    const env: Environment

    /** An empty XDG_DATA_HOME is rejected. */
    constructor (home: string, env: Environment)
      requires home != ""
      ensures this.home == home && this.env == env
    {
      this.home := home;
      this.env := env;
    }

    // Integrator

    method FindDesktopEntry(payload: seq<Entry>) returns (path: Option<string>)
      ensures path == DesktopEntryPath(payload)
    {
      for i := 0 to |payload|
        invariant DesktopEntryPath(payload) == DesktopEntryPath(payload[i..])
      {
        if IsMainDesktopFile(payload[i].path) {
          return Some(payload[i].path);
        }
      }
      return None;
    }

    /** The loops that choose a destination for each entry. */
    method BuildTargets(id: string, paths: set<string>) returns (targets: map<string, string>)
      requires home != "" && forall p <- paths :: Relative(p)
      ensures targets == DeployMap(home, id, paths)
    {
      hide DeployPath, Relative;
      targets := map[];
      var todo := paths;
      while todo != {}
        invariant todo <= paths
        invariant targets == DeployMap(home, id, paths - todo)
      {
        var p :| p in todo;
        var target := GenerateDeployPath(home, id, p);
        targets := targets[p := target];
        todo := todo - {p};
        assert paths - todo == (paths - (todo + {p})) + {p};
      }
      assert paths - {} == paths;
    }

    method ExtractDeployed(extractor: Extractor, id: string, paths: set<string>, fs: FileSystem)
      returns (error: Option<Error>)
      requires home != "" && extractor.Valid() && fs as object != extractor.cache
      requires forall p <- paths :: Relative(p)
      modifies fs
      ensures Ran(ExtractionOf(extractor.payload, DeployMap(home, id, paths)),
                  fs.faults, old(fs.files), old(fs.count), fs.files, fs.count, error.Some?)
    {
      hide IsChosen, AllResolve, IndexOf, Carry, Relative;
      var targets := BuildTargets(id, paths);
      error := extractor.ExtractTo(targets, fs);
      ghost var ix := IndexOf(extractor.payload);
      if AllResolve(ix, targets.Keys) {
        ghost var chosen :| IsChosen(ix, targets, chosen)
                            && Progress(fs.files, fs.count, error.Some?)
                               == Carry(old(fs.files), ExtractPlan(extractor.payload, chosen), fs.faults, old(fs.count));
        ChosenIsUnique(ix, targets, chosen, Chosen(ix, targets));
      } else {
        RanNothing(false, fs.faults, fs.files, fs.count);
      }
    }

    /** Errors of the icon library are only logged, and so are those of writing the icon. */
    method DeployIcons(extractor: Extractor, id: string, icon: string, fs: FileSystem) returns (error: Option<Error>)
      requires home != "" && extractor.Valid() && fs as object != extractor.cache
      requires RelativePaths(extractor.payload)
      modifies fs
      ensures Ran(IconsOf(env, home, id, extractor.payload, icon), fs.faults, old(fs.files), old(fs.count), fs.files, fs.count, error.Some?)
    {
      hide ExtractionOf, IndexOf, Extracted, DeployMap, IsIconFile, Ran, Relative;
      RanNothing(false, fs.faults, fs.files, fs.count);
      RanNothing(true, fs.faults, fs.files, fs.count);
      if icon == "" || !SlashFree(icon) {
        return Some(DesktopIntegrationError);
      }
      var paths := IconPaths(extractor.payload, icon);
      if paths == {} {
        var data := extractor.Extract(".DirIcon");
        if data.Ok? {
          DeployApplicationIcon(id, icon, data.value, fs);
        }
        return None;
      }
      error := ExtractDeployed(extractor, id, paths, fs);
    }

    method DeployApplicationIcon(id: string, iconName: string, data: Bytes, fs: FileSystem)
      requires home != ""
      modifies fs
      ensures Ran(Outcome(DirIconOf(env, home, id, iconName, data), true),
                  fs.faults, old(fs.files), old(fs.count), fs.files, fs.count, false)
    {
      hide DeployPath, StringSanitizer.Sanitized, Carry;
      var icon := env.readIcon(data);
      if icon.None? {
        RanNothing(true, fs.faults, fs.files, fs.count);
        return;
      }
      var name := StringSanitizer.SanitizeForPath(iconName);
      var iconPath := DIR_ICONS + (icon.value.size + "/apps/" + name + icon.value.extension);
      var deployPath := GenerateDeployPath(home, id, iconPath);
      CarryOne(fs.files, Write(deployPath, icon.value.image, SAVED_ICON), fs.faults, fs.count);
      var _ := fs.Put(deployPath, icon.value.image, SAVED_ICON);
    }

    method BuildDesktopFilePath(id: string, name: string) returns (path: string)
      ensures path == DesktopFilePath(home, id, name)
    {
      var sanitizedName := StringSanitizer.SanitizeForPath(name);
      path := Append(Append(home, "applications"), VENDOR_PREFIX + "_" + id + "-" + sanitizedName + ".desktop");
    }

    method DeployDesktopEntry(id: string, entry: DesktopEntry, fs: FileSystem) returns (error: Option<Error>)
      modifies fs
      ensures Ran(DesktopFileOf(home, id, entry), fs.faults, old(fs.files), old(fs.count), fs.files, fs.count, error.Some?)
    {
      hide DesktopFilePath, Carry;
      if entry.name.None? || entry.edited.None? {
        RanNothing(false, fs.faults, fs.files, fs.count);
        return Some(DesktopIntegrationError);
      }
      var path := BuildDesktopFilePath(id, entry.name.value);
      var raised := fs.Put(path, entry.edited.value, DESKTOP_FILE);
      error := if raised then Some(FileSystemError) else None;
    }

    /** The constructor of Integrator up to the desktop entry, and the check that the author
        does not refuse the integration. */
    method ReadDesktopEntry(extractor: Extractor) returns (entry: Result<DesktopEntry>)
      requires extractor.Valid()
      ensures entry.Err? <==> EntryOf(env, extractor.payload).None?
      ensures entry.Ok? ==> EntryOf(env, extractor.payload) == Some(entry.value)
    {
      hide IndexOf, Extracted;
      var path := FindDesktopEntry(extractor.payload);
      if path.None? {
        return Err(MissingDesktopEntry);
      }
      var data := extractor.Extract(path.value);
      if data.Err? {
        return Err(data.error);
      }
      var parsed := env.parse(data.value);
      if parsed.None? || parsed.value.refusesIntegration {
        return Err(DesktopIntegrationError);
      }
      return Ok(parsed.value);
    }

    /** Integrator and its integrate(): the planned writes in turn, up to the first exception. */
    method Integrate(app: AppImage, fs: FileSystem) returns (error: Option<Error>)
      requires home != "" && app.Readable()
      modifies fs
      ensures Ran(IntegrationOf(env, home, app), fs.faults, old(fs.files), old(fs.count), fs.files, fs.count, error.Some?)
    {
      hide IconsOf, MimeOf, EntryOf, DesktopFilePath, Ran, Hashlib.IdOf, DeployMap, MimePaths, Relative;
      RanNothing(false, fs.faults, fs.files, fs.count);
      var id := Hashlib.IdOf(app.path, env.absolute);
      var extractor := new Extractor(app.payload);
      var entry := ReadDesktopEntry(extractor);
      if entry.Err? {
        return Some(entry.error);
      }
      ghost var icons := IconsOf(env, home, id, app.payload, entry.value.icon);
      ghost var desktop, mime := DesktopFileOf(home, id, entry.value), MimeOf(home, id, app.payload);
      ghost var start, first := fs.files, fs.count;
      error := DeployIcons(extractor, id, entry.value.icon, fs);
      if error.Some? {
        RanStops(icons, desktop, fs.faults, start, first, fs.files, fs.count);
        RanStops(icons.Then(desktop), mime, fs.faults, start, first, fs.files, fs.count);
        return;
      }
      ghost var middle, between := fs.files, fs.count;
      error := DeployDesktopEntry(id, entry.value, fs);
      RanThen(icons, desktop, fs.faults, start, first, middle, between, fs.files, fs.count, error.Some?);
      if error.Some? {
        RanStops(icons.Then(desktop), mime, fs.faults, start, first, fs.files, fs.count);
        return;
      }
      middle, between := fs.files, fs.count;
      error := DeployMimeTypePackages(extractor, id, fs);
      RanThen(icons.Then(desktop), mime, fs.faults, start, first, middle, between, fs.files, fs.count, error.Some?);
    }

    method DeployMimeTypePackages(extractor: Extractor, id: string, fs: FileSystem) returns (error: Option<Error>)
      requires home != "" && extractor.Valid() && fs as object != extractor.cache
      requires RelativePaths(extractor.payload)
      modifies fs
      ensures Ran(MimeOf(home, id, extractor.payload), fs.faults, old(fs.files), old(fs.count), fs.files, fs.count, error.Some?)
    {
      error := ExtractDeployed(extractor, id, MimePaths(extractor.payload), fs);
    }

    // IntegrationManager

    method RemoveMatchingFiles(dir: string, hint: string, fs: FileSystem)
      modifies fs
      ensures fs.files == RemoveMatching(old(fs.files), dir, hint) && fs.count == old(fs.count)
    {
      hide Matches;
      var todo := fs.files.Keys;
      while todo != {}
        invariant todo <= old(fs.files).Keys && fs.count == old(fs.count)
        invariant fs.files == map p | p in old(fs.files) && (p in todo || !Matches(dir, hint, p)) :: old(fs.files)[p]
      {
        var p :| p in todo;
        if Matches(dir, hint, p) {
          fs.Remove(p);
        }
        todo := todo - {p};
      }
    }

    method UnregisterAppImage(path: string, fs: FileSystem)
      requires home != ""
      modifies fs
      ensures fs.files == Unregistered(old(fs.files), home, HintOf(env, path)) && fs.count == old(fs.count)
    {
      hide RemoveMatching, Unregistered;
      var hint := HintOf(env, path);
      RemovedThrice(fs.files, home, hint);
      RemoveMatchingFiles(Append(home, "applications"), hint, fs);
      RemoveMatchingFiles(Append(home, "icons"), hint, fs);
      RemoveMatchingFiles(Append(home, "mime/packages"), hint, fs);
    }

    method IsARegisteredAppImage(path: string, fs: FileSystem) returns (registered: bool)
      ensures registered <==> IsRegistered(fs.files, home, HintOf(env, path))
    {
      hide Matches;
      var todo := fs.files.Keys;
      while todo != {}
        invariant todo <= fs.files.Keys
        invariant forall p | p in fs.files && p !in todo :: !Matches(Append(home, "applications"), HintOf(env, path), p)
      {
        var p :| p in todo;
        if Matches(Append(home, "applications"), HintOf(env, path), p) {
          return true;
        }
        todo := todo - {p};
      }
      return false;
    }

    /** A registration carries out the plan. One that fails at any step removes what it has
        written, and whatever else carried the id. */
    method RegisterAppImage(app: AppImage, fs: FileSystem) returns (error: Option<Error>)
      requires home != "" && app.Readable()
      modifies fs
      ensures var o := IntegrationOf(env, home, app);
              var p := Carry(old(fs.files), o.plan, fs.faults, old(fs.count));
              && (error.None? <==> o.complete && !p.raised)
              && fs.count == p.count
              && fs.files == if error.None? then p.files else Unregistered(p.files, home, HintOf(env, app.path))
    {
      hide Unregistered, IntegrationOf, HintOf, Carry;
      error := Integrate(app, fs);
      if error.Some? {
        UnregisterAppImage(app.path, fs);
      }
    }
  }

  // What the plans mean for the files

  /** Files whose path does not have the id are as before. */
  ghost predicate OthersUntouched(files: FileMap, before: FileMap, hint: string) {
    forall p | !Contains(p, hint) :: SameAt(files, before, p)
  }

  lemma DesktopFileRegisters(files: FileMap, home: string, id: string, name: string)
    requires home != "" && DesktopFilePath(home, id, name) in files
    ensures IsRegistered(files, home, VENDOR_PREFIX + "_" + id)
  {
    hide DesktopFilePath, Append, Slash, Contains;
    DesktopFileIsManaged(home, id, name);
    DirectoriesAre(home);
    assert Matches(Append(home, "applications"), VENDOR_PREFIX + "_" + id, DesktopFilePath(home, id, name));
  }

  /** Whatever happens to its writes, a plan with the id leaves the other files alone, and if
      it stays in the managed directories unregistering undoes it. */
  lemma PlanLeavesOthers(before: FileMap, plan: seq<Write>, faults: Faults, count: nat, home: string, hint: string)
    requires AllWithId(hint, plan)
    ensures var files := Carry(before, plan, faults, count).files;
            OthersUntouched(files, before, hint)
            && (AllManaged(home, plan) ==> Unregistered(files, home, hint) == Unregistered(before, home, hint))
  {
    hide Contains, Managed, Apply, Carry, Survivors;
    CarryIsApply(before, plan, faults, count);
    var survivors := Survivors(before, plan, faults, count);
    forall s <- survivors ensures exists w <- plan :: s.path == w.path {
      SurvivorsAreWrites(before, plan, faults, count, s);
    }
    forall p | !Contains(p, hint) || (AllManaged(home, plan) && !Managed(home, p))
      ensures SameAt(Apply(before, survivors), before, p)
    {
      ApplyTouches(before, survivors, p);
    }
  }

  lemma UnregisteredLeavesOthers(files: FileMap, before: FileMap, home: string, hint: string)
    requires OthersUntouched(files, before, hint)
    ensures OthersUntouched(Unregistered(files, home, hint), before, hint)
    ensures Unregistered(Unregistered(files, home, hint), home, hint) == Unregistered(files, home, hint)
  {
    hide Contains, Managed;
  }
}
