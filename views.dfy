/** The screens of the reader (`AppView`) and its colour themes (`Theme`). */
module Views {
  import opened Wrappers

  datatype AppView =
    | Library | Reader | Search | Toc | Rsvp | Annotation | AnnotationList | Dictionary
    | Visual | Select | Vocabulary | GlobalSearch | PathInput | FileExplorer | Help | Stats

  datatype Theme = Default | Gruvbox | Nord | Sepia

  /** Lower-case form of an ASCII capital letter; every other character is kept. */
  function LowerChar(c: char): (l: char)
    ensures 'A' <= c <= 'Z' ==> 'a' <= l <= 'z' && l as int == c as int + 32
    ensures !('A' <= c <= 'Z') ==> l == c
  {
    if 'A' <= c <= 'Z' then (c as int + 32) as char else c
  }

  /** `to_lowercase` on the ASCII letters. */
  function Lower(s: string): (r: string)
    ensures |r| == |s|
    ensures forall i :: 0 <= i < |s| ==> r[i] == LowerChar(s[i])
  {
    if s == [] then [] else [LowerChar(s[0])] + Lower(s[1..])
  }

  /**
   * `Theme::from_str`: a configured name read without regard to case; an
   * unknown name selects the default theme.
   */
  function ThemeFromStr(value: string): (t: Theme)
    ensures t == Gruvbox <==> Lower(value) == "gruvbox"
    ensures t == Nord <==> Lower(value) == "nord"
    ensures t == Sepia <==> Lower(value) == "sepia"
  {
    match Lower(value)
    case "gruvbox" => Gruvbox
    case "nord" => Nord
    case "sepia" => Sepia
    case _ => Default
  }

  /** Lower-casing twice is lower-casing once. */
  lemma LowerIdempotent(s: string)
    ensures Lower(Lower(s)) == Lower(s)
  {
  }

  /** A name and its upper- or mixed-case spellings pick the same theme. */
  lemma ThemeFromStrIgnoresCase(value: string)
    ensures ThemeFromStr(Lower(value)) == ThemeFromStr(value)
  {
    LowerIdempotent(value);
  }

  /** `toggle_theme`: Default, Gruvbox, Nord, Sepia, then Default again. */
  function NextTheme(t: Theme): (r: Theme)
    ensures r != t
  {
    match t
    case Default => Gruvbox
    case Gruvbox => Nord
    case Nord => Sepia
    case Sepia => Default
  }

  /** Four toggles bring every theme back, and fewer never do. */
  lemma ThemeCycle(t: Theme)
    ensures NextTheme(NextTheme(NextTheme(NextTheme(t)))) == t
    ensures NextTheme(NextTheme(t)) != t && NextTheme(NextTheme(NextTheme(t))) != t
  {
  }

  /**
   * The `?` key, as the new view and the saved view: from any view but Help
   * it opens Help and saves the view it left; in Help it goes back to the
   * saved view, or the library when none is saved, and forgets it. Esc and
   * `q` inside Help do the same as `?` there.
   */
  function HelpKey(view: AppView, previous: Option<AppView>): (r: (AppView, Option<AppView>))
    ensures view != Help ==> r == (Help, Some(view))
    ensures view == Help ==> r.1 == None && (r.0 == previous.GetOr(Library))
  {
    if view == Help then (previous.GetOr(Library), None)
    else (Help, Some(view))
  }

  /** Opening Help and leaving it again returns to the view it was opened from. */
  lemma HelpRoundTrip(view: AppView, previous: Option<AppView>)
    requires view != Help
    ensures var shown := HelpKey(view, previous);
            HelpKey(shown.0, shown.1) == (view, None)
  {
  }

  /** Leaving Help never lands in Help again, as no view saved on opening it is Help. */
  lemma LeavingHelpLeavesIt(previous: Option<AppView>)
    requires previous != Some(Help)
    ensures HelpKey(Help, previous).0 != Help
  {
  }
}
