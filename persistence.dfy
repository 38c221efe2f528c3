/** The persistence merge: the read-modify-write a resolution task applies to the
    stored presentation theme settings when it issues a write. */
module Persistence {
  import opened ThemeTypes

  /** The settings written for a resolved `updatedTheme` (with its parsed theme, if
      any) over the stored `entry`, or over `defaults` when nothing is stored.
      Only the theme reference and the chat wallpaper change. */
  function UpdatedSettings(entry: Option<ThemeSettings>, defaults: ThemeSettings,
                           updatedTheme: ThemeReference, presentationTheme: Option<ParsedTheme>): (r: ThemeSettings)
    ensures var current := CurrentOrDefault(entry, defaults);
      && r.theme == updatedTheme
      && r.themeSpecificAccentColors == current.themeSpecificAccentColors
      && r.themeSpecificChatWallpapers == current.themeSpecificChatWallpapers
      && r.fontSize == current.fontSize
      && r.automaticThemeSwitchSetting == current.automaticThemeSwitchSetting
      && r.largeEmoji == current.largeEmoji
      && r.disableAnimations == current.disableAnimations
    // A theme-specific override wins.
    ensures var current := CurrentOrDefault(entry, defaults);
      updatedTheme.Index() in current.themeSpecificChatWallpapers ==>
        r.chatWallpaper == current.themeSpecificChatWallpapers[updatedTheme.Index()]
    // Otherwise, with a parsed theme, the cloud theme's resolved wallpaper, else the theme's default.
    ensures var current := CurrentOrDefault(entry, defaults);
      updatedTheme.Index() !in current.themeSpecificChatWallpapers && presentationTheme.Some? ==>
        r.chatWallpaper == (if updatedTheme.Cloud? && updatedTheme.info.resolvedWallpaper.Some?
                            then updatedTheme.info.resolvedWallpaper.value
                            else presentationTheme.value.defaultWallpaper)
    // Otherwise the stored wallpaper is kept.
    ensures var current := CurrentOrDefault(entry, defaults);
      updatedTheme.Index() !in current.themeSpecificChatWallpapers && presentationTheme.None? ==>
        r.chatWallpaper == current.chatWallpaper
  {
    var current := CurrentOrDefault(entry, defaults);
    var chatWallpaper :=
      if updatedTheme.Index() in current.themeSpecificChatWallpapers then
        current.themeSpecificChatWallpapers[updatedTheme.Index()]
      else if presentationTheme.Some? then
        match updatedTheme
        case Cloud(info) =>
          (match info.resolvedWallpaper
           case Some(resolvedWallpaper) => resolvedWallpaper
           case None => presentationTheme.value.defaultWallpaper)
        case Other(_) => presentationTheme.value.defaultWallpaper
      else
        current.chatWallpaper;
    ThemeSettings(chatWallpaper, updatedTheme, current.themeSpecificAccentColors, current.themeSpecificChatWallpapers,
                  current.fontSize, current.automaticThemeSwitchSetting, current.largeEmoji, current.disableAnimations)
  }

  /** Applying the same write twice is the same as applying it once. */
  lemma UpdatedSettingsIdempotent(entry: Option<ThemeSettings>, defaults: ThemeSettings,
                                  updatedTheme: ThemeReference, presentationTheme: Option<ParsedTheme>)
    ensures var once := UpdatedSettings(entry, defaults, updatedTheme, presentationTheme);
      UpdatedSettings(Some(once), defaults, updatedTheme, presentationTheme) == once
  {
  }

  /** The written settings differ from the stored ones at most in the theme
      reference and the chat wallpaper. */
  lemma UpdatedSettingsOnlyThemeAndWallpaper(entry: Option<ThemeSettings>, defaults: ThemeSettings,
                                             updatedTheme: ThemeReference, presentationTheme: Option<ParsedTheme>)
    ensures var current := CurrentOrDefault(entry, defaults);
      UpdatedSettings(entry, defaults, updatedTheme, presentationTheme).(theme := current.theme, chatWallpaper := current.chatWallpaper) == current
  {
  }

  /** The stored settings after each write of `writes` is applied in order. */
  function ApplyWrites(entry: Option<ThemeSettings>, defaults: ThemeSettings, writes: seq<Emission>): Option<ThemeSettings>
    decreases |writes|
  {
    if writes == [] then entry
    else ApplyWrites(Some(UpdatedSettings(entry, defaults, writes[0].updatedTheme, writes[0].presentationTheme)), defaults, writes[1..])
  }

  /** However many writes are applied, the fields outside the theme reference and
      the chat wallpaper remain those of the settings first read, and the stored
      theme is that of the last write. */
  lemma {:induction false} ApplyWritesPreservesUnrelated(entry: Option<ThemeSettings>, defaults: ThemeSettings, writes: seq<Emission>)
    requires writes != []
    ensures ApplyWrites(entry, defaults, writes).Some?
    ensures var first := CurrentOrDefault(entry, defaults);
            var last := ApplyWrites(entry, defaults, writes).value;
      last.(theme := first.theme, chatWallpaper := first.chatWallpaper) == first
    ensures ApplyWrites(entry, defaults, writes).value.theme == writes[|writes| - 1].updatedTheme
    decreases |writes|
  {
    var once := UpdatedSettings(entry, defaults, writes[0].updatedTheme, writes[0].presentationTheme);
    if |writes| > 1 {
      ApplyWritesPreservesUnrelated(Some(once), defaults, writes[1..]);
      assert writes[1..][|writes[1..]| - 1] == writes[|writes| - 1];
    }
  }
}
