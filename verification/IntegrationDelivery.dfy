/** What a registration delivers: which faults it survives whole, and where its files are. */
module IntegrationDelivery {
  import opened Payload
  import opened Files
  import opened DeployPaths
  import opened PayloadEntriesCache
  import opened ResourcesExtractor
  import opened ExtractToTheorems
  import opened IntegrationManager
  import opened IntegrationTheorems
  import Hashlib
  import StringSanitizer

  /** Into a place where none of its files is yet, a registration succeeds with all of its
      files and all of their data if and only if no fault harms a write. */
  lemma DeliveredWholeExactly(env: Environment, home: string, app: AppImage, before: FileMap, faults: Faults, count: nat)
    requires var o := IntegrationOf(env, home, app); o.complete && Fresh(before, o.plan)
    ensures var plan := IntegrationOf(env, home, app).plan;
            && Succeeds(env, home, app, before, faults, count)
            && AllThere(Registered(env, home, app, before, faults, count), plan)
            <==> forall i | 0 <= i < |plan| :: Unharmed(plan[i], faults(count + i))
  {
    hide IntegrationOf, Carry, AllThere, Unharmed, Unregistered;
    WholeExactly(before, IntegrationOf(env, home, app).plan, faults, count);
  }

  lemma FaultlessRegistration(env: Environment, home: string, app: AppImage, before: FileMap)
    requires IntegrationOf(env, home, app).complete
    ensures Succeeds(env, home, app, before, NO_FAULTS, 0)
    ensures Registered(env, home, app, before, NO_FAULTS, 0) == Apply(before, IntegrationOf(env, home, app).plan)
  {
    hide IntegrationOf, Carry, Apply;
    FaultlessIsApply(before, IntegrationOf(env, home, app).plan, NO_FAULTS, 0);
  }

  /** Extraction to these destinations is unambiguous: see ExtractToTheorems. */
  ghost predicate Unambiguous(payload: seq<Entry>, targets: map<string, string>) {
    && Distinct(IndexOf(payload), targets)
    && forall k <- targets :: IndexOf(payload).TargetOf(k).Ok? ==> AtMostOnce(payload, IndexOf(payload).TargetOf(k).value)
  }

  /** A registration that comes to its end leaves the edited desktop entry under the path of
      buildDesktopFilePath. */
  lemma DesktopFileIsDelivered(env: Environment, home: string, app: AppImage, before: FileMap)
    requires home != "" && IntegrationOf(env, home, app).complete
    ensures var id, entry := Hashlib.IdOf(app.path, env.absolute), EntryOf(env, app.payload).value;
            var after, path := Apply(before, IntegrationOf(env, home, app).plan), DesktopFilePath(home, id, entry.name.value);
            entry.name.Some? && path in after && Some(after[path]) == entry.edited
  {
    hide IconsOf, MimeOf, EntryOf, DesktopFilePath, Hashlib.IdOf, APPLICATIONS, MIME, Slash;
    var id, entry := Hashlib.IdOf(app.path, env.absolute), EntryOf(env, app.payload).value;
    var icons, mime := IconsOf(env, home, id, app.payload, entry.icon).plan, MimeOf(home, id, app.payload).plan;
    var path := DesktopFilePath(home, id, entry.name.value);
    var write := Write(path, entry.edited.value, DESKTOP_FILE);
    ApplyConcat(before, icons + [write], mime);
    ApplyConcat(before, icons, [write]);
    OneWrite(Apply(before, icons), write);
    DesktopFileIsManaged(home, id, entry.name.value);
    DirectoriesAreDisjoint(home, path);
    forall w <- mime ensures w.path != path {
      MimeIsUnderMime(home, id, app.payload, w);
    }
    ApplyTouches(Apply(before, icons + [write]), mime, path);
  }

  lemma MimeIsUnderMime(home: string, id: string, payload: seq<Entry>, w: Write)
    requires w in MimeOf(home, id, payload).plan
    ensures Slash(home) + MIME <= w.path
  {
    hide ExtractionOf, DeployPath, Directory, Slash, IsMimeFile;
    var p := DeploymentWrites(payload, home, id, MimePaths(payload), w);
    MimeFileIsUnder(p);
    MimeEntryIsManaged(p);
    DeployedUnderExactly(home, id, p);
  }

  /** Every mime package of the payload arrives at the place of generateDeployPath with the
      bytes of extract. */
  lemma MimePackagesAreDelivered(env: Environment, home: string, app: AppImage, before: FileMap)
    requires IntegrationOf(env, home, app).complete
    requires var id := Hashlib.IdOf(app.path, env.absolute);
             Unambiguous(app.payload, DeployMap(home, id, MimePaths(app.payload)))
    ensures var id, after := Hashlib.IdOf(app.path, env.absolute), Apply(before, IntegrationOf(env, home, app).plan);
            forall p <- MimePaths(app.payload) | Extracted(app.payload, IndexOf(app.payload), p).Ok? ::
              Arrived(after, DeployPath(home, id, p), Extracted(app.payload, IndexOf(app.payload), p).value)
  {
    hide IconsOf, EntryOf, DesktopFileOf, Hashlib.IdOf, IndexOf, Apply, ExtractionOf, Unambiguous, DeployPath, Arrived, Extracted, MimePaths;
    var id, entry := Hashlib.IdOf(app.path, env.absolute), EntryOf(env, app.payload).value;
    var first := IconsOf(env, home, id, app.payload, entry.icon).Then(DesktopFileOf(home, id, entry)).plan;
    ApplyConcat(before, first, MimeOf(home, id, app.payload).plan);
    ExtractionDelivers(app.payload, DeployMap(home, id, MimePaths(app.payload)), Apply(before, first));
  }

  /** The steps after deployIcons write nothing below icons. */
  lemma LaterStepsKeepIcons(env: Environment, home: string, app: AppImage, before: FileMap, path: string)
    requires home != "" && IntegrationOf(env, home, app).complete && Slash(home) + ICONS <= path
    ensures var id, icon := Hashlib.IdOf(app.path, env.absolute), EntryOf(env, app.payload).value.icon;
            SameAt(Apply(before, IntegrationOf(env, home, app).plan),
                   Apply(before, IconsOf(env, home, id, app.payload, icon).plan), path)
  {
    hide IconsOf, MimeOf, EntryOf, DesktopFilePath, Hashlib.IdOf, APPLICATIONS, MIME, ICONS, Slash, Apply;
    var id, entry := Hashlib.IdOf(app.path, env.absolute), EntryOf(env, app.payload).value;
    var icons, mime := IconsOf(env, home, id, app.payload, entry.icon).plan, MimeOf(home, id, app.payload).plan;
    var write := Write(DesktopFilePath(home, id, entry.name.value), entry.edited.value, DESKTOP_FILE);
    assert icons + [write] + mime == icons + ([write] + mime);
    ApplyConcat(before, icons, [write] + mime);
    DesktopFileIsManaged(home, id, entry.name.value);
    DirectoriesAreDisjoint(home, path);
    forall w <- [write] + mime ensures w.path != path {
      if w in mime {
        MimeIsUnderMime(home, id, app.payload, w);
      }
    }
    ApplyTouches(Apply(before, icons), [write] + mime, path);
  }

  /** So do the icons of that name below usr/share/icons/. */
  lemma IconsAreDelivered(env: Environment, home: string, app: AppImage, before: FileMap)
    requires home != "" && IntegrationOf(env, home, app).complete
    requires DeployedIcons(env, app) != {} && forall p <- DeployedIcons(env, app) :: USR_SHARE_ICONS <= p
    requires var id := Hashlib.IdOf(app.path, env.absolute);
             Unambiguous(app.payload, DeployMap(home, id, DeployedIcons(env, app)))
    ensures var id, after := Hashlib.IdOf(app.path, env.absolute), Apply(before, IntegrationOf(env, home, app).plan);
            forall p <- DeployedIcons(env, app) | Extracted(app.payload, IndexOf(app.payload), p).Ok? ::
              Arrived(after, DeployPath(home, id, p), Extracted(app.payload, IndexOf(app.payload), p).value)
  {
    hide EntryOf, DesktopFileOf, MimeOf, Hashlib.IdOf, IndexOf, Apply, ExtractionOf, Unambiguous, DeployPath, Directory, Extracted, IconPaths, Slash;
    var id := Hashlib.IdOf(app.path, env.absolute);
    ExtractionDelivers(app.payload, DeployMap(home, id, DeployedIcons(env, app)), before);
    forall p <- DeployedIcons(env, app)
      ensures SameAt(Apply(before, IntegrationOf(env, home, app).plan),
                     Apply(before, ExtractionOf(app.payload, DeployMap(home, id, DeployedIcons(env, app))).plan),
                     DeployPath(home, id, p))
    {
      IconEntryIsManaged(p);
      DeployedUnderExactly(home, id, p);
      LaterStepsKeepIcons(env, home, app, before, DeployPath(home, id, p));
    }
  }

  /** Without any such icon it is the image made of .DirIcon that arrives. */
  lemma FallbackIconIsDelivered(env: Environment, home: string, app: AppImage, before: FileMap)
    requires home != "" && IntegrationOf(env, home, app).complete && DeployedIcons(env, app) == {}
    requires var data := Extracted(app.payload, IndexOf(app.payload), ".DirIcon");
             data.Ok? && env.readIcon(data.value).Some?
    ensures var icon := env.readIcon(Extracted(app.payload, IndexOf(app.payload), ".DirIcon").value).value;
            var id, after := Hashlib.IdOf(app.path, env.absolute), Apply(before, IntegrationOf(env, home, app).plan);
            Arrived(after, DeployPath(home, id, DirIconPath(icon, EntryOf(env, app.payload).value.icon)), icon.image)
  {
    hide EntryOf, DesktopFileOf, MimeOf, Hashlib.IdOf, IndexOf, Apply, DeployPath, Directory, Extracted, IconPaths, Slash, DirIconPath;
    var id, name := Hashlib.IdOf(app.path, env.absolute), EntryOf(env, app.payload).value.icon;
    var icon := env.readIcon(Extracted(app.payload, IndexOf(app.payload), ".DirIcon").value).value;
    var path := DeployPath(home, id, DirIconPath(icon, name));
    DirIconIsUnderIcons(home, id, icon, name);
    LaterStepsKeepIcons(env, home, app, before, path);
    OneWrite(before, Write(path, icon.image, SAVED_ICON));
  }

  lemma DirIconIsUnderIcons(home: string, id: string, icon: Icon, name: string)
    ensures Slash(home) + ICONS <= DeployPath(home, id, DirIconPath(icon, name))
  {
    hide DeployPath, Directory, Slash, StringSanitizer.Sanitized;
    var path := DirIconPath(icon, name);
    assert DIR_ICONS <= path;
    DirIconIsManaged(path);
    DeployedUnderExactly(home, id, path);
  }

  ghost predicate Arrived(files: FileMap, path: string, data: Bytes) { path in files && files[path] == data }

  lemma ExtractionDelivers(payload: seq<Entry>, targets: map<string, string>, files: FileMap)
    requires ExtractionOf(payload, targets).complete && Unambiguous(payload, targets)
    ensures forall k <- targets | Extracted(payload, IndexOf(payload), k).Ok? ::
              Arrived(Apply(files, ExtractionOf(payload, targets).plan), targets[k], Extracted(payload, IndexOf(payload), k).value)
  {
    hide IndexOf, Apply, Extracted, IsChosen;
    var ix := IndexOf(payload);
    ChosenExists(ix, targets);
    forall k <- targets | Extracted(payload, ix, k).Ok?
      ensures Arrived(Apply(files, ExtractPlan(payload, Chosen(ix, targets))), targets[k], Extracted(payload, ix, k).value)
    {
      ArrivesAtDestination(payload, ix, targets, Chosen(ix, targets), files, k);
    }
  }
}
