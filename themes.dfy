/** The values the theme update manager works on: theme references, wallpapers,
    the parsed theme (only its default wallpaper matters here) and the persisted
    presentation theme settings. */
module ThemeTypes {

  datatype Option<+T> = None | Some(value: T)

  /** Identity of a resource in the content-addressed media cache. */
  type ResourceId = string

  type Bytes = seq<bv8>

  datatype MediaFile = MediaFile(resource: ResourceId)

  /** A wallpaper backed by a file; `id == 0` marks a placeholder that still has to be
      looked up by its slug. */
  datatype WallpaperFile = WallpaperFile(id: int, slug: string, file: MediaFile)

  /** A chat wallpaper: file-backed, or any of the other kinds (builtin, colour,
      gradient, image), which this module never looks into. */
  datatype Wallpaper = FileWallpaper(wallpaperFile: WallpaperFile) | OtherWallpaper(code: int)

  /** A theme as the server describes it; `file` is the theme's resource, if it has
      one, and `details` stands for every other field (title, access hash, settings,
      ...) that the program's equality of themes compares. */
  datatype RemoteTheme = RemoteTheme(id: int, slug: string, file: Option<MediaFile>, details: int)

  datatype CloudTheme = CloudTheme(theme: RemoteTheme, resolvedWallpaper: Option<Wallpaper>)

  /** A theme reference: a cloud theme, or one of the builtin and local kinds,
      which the manager does not resolve. */
  datatype ThemeReference = Cloud(info: CloudTheme) | Other(otherIndex: int)
  {
    /** The identity used as the registry key. A cloud theme is identified by its
        remote theme id. */
    function Index(): int
    {
      match this
      case Cloud(info) => info.theme.id
      case Other(i) => i
    }
  }

  /** The parsed theme; everything but the default chat wallpaper is opaque here. */
  datatype ParsedTheme = ParsedTheme(defaultWallpaper: Wallpaper)

  type AccentColor = int

  type FontSize = int

  /** The automatic night-mode switch configuration, opaque to this module. */
  datatype AutomaticThemeSwitchSetting = AutomaticThemeSwitchSetting(trigger: int, theme: int)

  /** The persisted presentation theme settings. */
  datatype ThemeSettings = ThemeSettings(
    chatWallpaper: Wallpaper,
    theme: ThemeReference,
    themeSpecificAccentColors: map<int, AccentColor>,
    themeSpecificChatWallpapers: map<int, Wallpaper>,
    fontSize: FontSize,
    automaticThemeSwitchSetting: AutomaticThemeSwitchSetting,
    largeEmoji: bool,
    disableAnimations: bool)

  /** A resolved theme as the resolution pipeline emits it. */
  datatype Emission = Emission(updatedTheme: ThemeReference, presentationTheme: Option<ParsedTheme>)

  /** The stored settings entry, or the defaults when there is none. */
  function CurrentOrDefault(entry: Option<ThemeSettings>, defaults: ThemeSettings): ThemeSettings
  {
    match entry
    case Some(current) => current
    case None => defaults
  }
}
