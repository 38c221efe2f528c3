/** The resolution pipeline of one task, as a decision over the results of its
    collaborators: actualize the remote theme, fetch and parse its resource,
    resolve a placeholder wallpaper and fetch that wallpaper's full-size image.
    Every missing result ends the pipeline quietly, without an emission. */
module Pipeline {
  import opened ThemeTypes
  import Persistence

  /** The outcome of the full-size wallpaper fetch. */
  datatype FullSizeFetch = FullSizeFetch(fullSizeData: Option<Bytes>, complete: bool)

  /** Data stored into the media cache under a resource identity. */
  datatype StoredResource = StoredResource(resource: ResourceId, data: Bytes)

  /** The results the external collaborators deliver, as functions of their inputs. */
  datatype Collaborators = Collaborators(
    actualizedTheme: RemoteTheme -> RemoteTheme,
    themeData: ResourceId -> Option<Bytes>,
    makePresentationTheme: Bytes -> Option<ParsedTheme>,
    cachedWallpaper: string -> Option<Wallpaper>,
    wallpaperData: MediaFile -> FullSizeFetch)

  datatype PipelineOutcome = PipelineOutcome(emission: Option<Emission>, stored: Option<StoredResource>)

  /** The wallpaper to resolve: a file wallpaper whose id is still the placeholder 0
      is looked up by slug; any other default wallpaper resolves to nothing. */
  function ResolvedWallpaper(defaultWallpaper: Wallpaper, env: Collaborators): (r: Option<Wallpaper>)
    ensures r.Some? ==> && defaultWallpaper.FileWallpaper?
                        && defaultWallpaper.wallpaperFile.id == 0
                        && r == env.cachedWallpaper(defaultWallpaper.wallpaperFile.slug)
    ensures defaultWallpaper.FileWallpaper? && defaultWallpaper.wallpaperFile.id == 0 ==>
              r == env.cachedWallpaper(defaultWallpaper.wallpaperFile.slug)
  {
    match defaultWallpaper
    case FileWallpaper(file) => if file.id == 0 then env.cachedWallpaper(file.slug) else None
    case OtherWallpaper(_) => None
  }

  /** The emission (and the cache store) of the pipeline started for the cloud theme `info`. */
  function ResolveTheme(info: CloudTheme, env: Collaborators): (r: PipelineOutcome)
    // Nothing is stored without an emission.
    ensures r.emission.None? ==> r.stored.None?
    // An emission is the actualized theme as a cloud reference, with a parsed theme.
    ensures r.emission.Some? ==>
              && r.emission.value.updatedTheme.Cloud?
              && r.emission.value.updatedTheme.info.theme == env.actualizedTheme(info.theme)
              && r.emission.value.presentationTheme.Some?
    // A resolved wallpaper is a file wallpaper, stored under its resource.
    ensures r.emission.Some? && r.emission.value.updatedTheme.Cloud? && r.emission.value.updatedTheme.info.resolvedWallpaper.Some? ==>
              var w := r.emission.value.updatedTheme.info.resolvedWallpaper.value;
              w.FileWallpaper? && r.stored.Some? && r.stored.value.resource == w.wallpaperFile.file.resource
  {
    var theme := env.actualizedTheme(info.theme);
    match theme.file
    case None => PipelineOutcome(None, None)
    case Some(file) =>
      match env.themeData(file.resource)
      case None => PipelineOutcome(None, None)
      case Some(data) =>
        match env.makePresentationTheme(data)
        case None => PipelineOutcome(None, None)
        case Some(presentationTheme) =>
          match ResolvedWallpaper(presentationTheme.defaultWallpaper, env)
          case Some(FileWallpaper(wallpaperFile)) =>
            var fetch := env.wallpaperData(wallpaperFile.file);
            if fetch.complete && fetch.fullSizeData.Some? then
              PipelineOutcome(
                Some(Emission(Cloud(CloudTheme(theme, Some(FileWallpaper(wallpaperFile)))), Some(presentationTheme))),
                Some(StoredResource(wallpaperFile.file.resource, fetch.fullSizeData.value)))
            else PipelineOutcome(None, None)
          case _ =>
            PipelineOutcome(Some(Emission(Cloud(CloudTheme(theme, None)), Some(presentationTheme))), None)
  }

  /** The pipeline emits iff the actualized theme has a file, its data was fetched
      and parsed, and a file wallpaper that had to be resolved was fetched in full. */
  lemma ResolveThemeEmitsIff(info: CloudTheme, env: Collaborators)
    ensures var theme := env.actualizedTheme(info.theme);
      ResolveTheme(info, env).emission.Some? <==>
        && theme.file.Some?
        && env.themeData(theme.file.value.resource).Some?
        && env.makePresentationTheme(env.themeData(theme.file.value.resource).value).Some?
        && var parsed := env.makePresentationTheme(env.themeData(theme.file.value.resource).value).value;
           var resolved := ResolvedWallpaper(parsed.defaultWallpaper, env);
           resolved.Some? && resolved.value.FileWallpaper? ==>
             env.wallpaperData(resolved.value.wallpaperFile.file).complete
             && env.wallpaperData(resolved.value.wallpaperFile.file).fullSizeData.Some?
  {
  }

  /** An emission carries the actualized cloud theme (hence the task's identity
      when actualization keeps the id) and the parsed theme of its data. */
  lemma ResolveThemeEmissionShape(info: CloudTheme, env: Collaborators)
    requires ResolveTheme(info, env).emission.Some?
    ensures var theme := env.actualizedTheme(info.theme);
            var e := ResolveTheme(info, env).emission.value;
      && e.updatedTheme.Cloud?
      && e.updatedTheme.info.theme == theme
      && e.updatedTheme.Index() == theme.id
      && theme.file.Some?
      && env.themeData(theme.file.value.resource).Some?
      && e.presentationTheme == env.makePresentationTheme(env.themeData(theme.file.value.resource).value)
      && e.presentationTheme.Some?
  {
  }

  /** A resolved wallpaper is emitted only for a placeholder file wallpaper whose
      slug lookup gave a file wallpaper, and exactly then its full-size data is
      stored under that wallpaper's resource; otherwise nothing is stored. */
  lemma ResolveThemeWallpaper(info: CloudTheme, env: Collaborators)
    requires ResolveTheme(info, env).emission.Some?
    ensures var r := ResolveTheme(info, env);
            var parsed := r.emission.value.presentationTheme.value;
            var resolved := r.emission.value.updatedTheme.info.resolvedWallpaper;
      && (resolved.Some? <==> r.stored.Some?)
      && (resolved.Some? ==>
            && parsed.defaultWallpaper.FileWallpaper?
            && parsed.defaultWallpaper.wallpaperFile.id == 0
            && env.cachedWallpaper(parsed.defaultWallpaper.wallpaperFile.slug) == resolved
            && resolved.value.FileWallpaper?
            && r.stored.value.resource == resolved.value.wallpaperFile.file.resource
            && env.wallpaperData(resolved.value.wallpaperFile.file).fullSizeData == Some(r.stored.value.data))
      && (resolved.None? ==>
            var lookup := ResolvedWallpaper(parsed.defaultWallpaper, env);
            lookup.None? || lookup.value.OtherWallpaper?)
  {
  }

  /** A theme without a resource file produces no emission and stores nothing. */
  lemma ResolveThemeWithoutFile(info: CloudTheme, env: Collaborators)
    requires env.actualizedTheme(info.theme).file.None?
    ensures ResolveTheme(info, env) == PipelineOutcome(None, None)
  {
  }

  /** Writing an emission of the pipeline: the theme-specific override for the
      theme's index wins; otherwise the resolved wallpaper, else the parsed
      theme's default. The stored wallpaper is never kept without an override,
      since a pipeline emission always carries a parsed theme. */
  lemma MergedPipelineWallpaper(info: CloudTheme, env: Collaborators, entry: Option<ThemeSettings>, defaults: ThemeSettings)
    requires ResolveTheme(info, env).emission.Some?
    ensures var e := ResolveTheme(info, env).emission.value;
            var current := CurrentOrDefault(entry, defaults);
            var written := Persistence.UpdatedSettings(entry, defaults, e.updatedTheme, e.presentationTheme);
      && written.theme == e.updatedTheme
      && (e.updatedTheme.Index() in current.themeSpecificChatWallpapers ==>
            written.chatWallpaper == current.themeSpecificChatWallpapers[e.updatedTheme.Index()])
      && (e.updatedTheme.Index() !in current.themeSpecificChatWallpapers ==>
            written.chatWallpaper == match e.updatedTheme.info.resolvedWallpaper
                                     case Some(w) => w
                                     case None => e.presentationTheme.value.defaultWallpaper)
  {
    ResolveThemeEmissionShape(info, env);
  }
}
