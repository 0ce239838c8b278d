/**
  The legacy featured loaders: each card turns its title into a gallery
  animation record (with an id slugged from the title) for the fullscreen
  viewer, and into a one-file listing for the code viewer.
 */
module Legacy {
  import opened Wrappers
  import opened Text
  import Catalogue
  import Editor

  /** A character the slug keeps: a lower-case ASCII letter or a digit. */
  predicate SlugSafe(c: char) {
    'a' <= c <= 'z' || '0' <= c <= '9'
  }

  /** Lower-case, then every character outside `[a-z0-9]` becomes `-`. */
  function Slug(title: string): (r: string)
    ensures |r| == |title|
    ensures forall i :: 0 <= i < |r| ==> r[i] == if SlugSafe(LowerChar(title[i])) then LowerChar(title[i]) else '-'
  {
    var lower := ToLower(title);
    seq(|lower|, i requires 0 <= i < |lower| => if SlugSafe(lower[i]) then lower[i] else '-')
  }

  /**
    The slug uses only lower-case letters, digits and `-`: upper-case letters
    are lowered, lower-case letters and digits kept, and everything else
    becomes `-`.
   */
  lemma SlugCharacters(title: string)
    ensures forall i :: 0 <= i < |Slug(title)| ==> SlugSafe(Slug(title)[i]) || Slug(title)[i] == '-'
    ensures forall i :: 0 <= i < |title| ==>
      (IsUpper(title[i]) ==> Slug(title)[i] == (title[i] as int + 32) as char) &&
      (SlugSafe(title[i]) ==> Slug(title)[i] == title[i]) &&
      (!IsUpper(title[i]) && !SlugSafe(title[i]) ==> Slug(title)[i] == '-')
  {
  }

  /** Slugging a slug changes nothing. */
  lemma SlugIdempotent(title: string)
    ensures Slug(Slug(title)) == Slug(title)
  {
    var s := Slug(title);
    assert forall i :: 0 <= i < |s| ==> !IsUpper(s[i]) && LowerChar(s[i]) == s[i];
  }

  /** The two featured titles' ids. */
  lemma FeaturedSlugs()
    ensures Slug("SOLAR_SYSTEM") == "solar-system"
    ensures Slug("3D_SPHERE_SCAN") == "3d-sphere-scan"
  {
  }

  /** The record a card hands to the fullscreen viewer. */
  function LoaderAnimation(title: string, fullscreenHtml: string, author: Catalogue.User): (a: Catalogue.Animation)
    ensures a.id == Slug(title) && a.name == title
    ensures a.description == title + " loading animation"
    ensures a.category == Catalogue.ShapeShift && a.html == fullscreenHtml
    ensures a.tailwindClasses == "" && a.author == Some(author)
  {
    Catalogue.Animation(
      id := Slug(title),
      name := title,
      description := title + " loading animation",
      category := Catalogue.ShapeShift,
      html := fullscreenHtml,
      tailwindClasses := "",
      author := Some(author))
  }

  /** The one file a card's code viewer lists: the lower-cased title plus `.html`, holding the card's code. */
  function EditorFile(title: string, code: string): (f: Editor.CodeFile)
    ensures |f.name| == |title| + 5 && f.name[..|title|] == ToLower(title) && f.name[|title|..] == ".html"
    ensures f.content == code
  {
    Editor.CodeFile(ToLower(title) + ".html", code)
  }

  /** The card's file opens under the HTML icon, and the fullscreen record's id matches the file name's stem up to `-`. */
  lemma EditorFileIsHtml(title: string, code: string)
    ensures Editor.TabIcon(EditorFile(title, code).name) == "fa-code"
    ensures forall i :: 0 <= i < |title| ==>
      Slug(title)[i] == EditorFile(title, code).name[i] || Slug(title)[i] == '-'
  {
    Editor.TabIconByExtension(ToLower(title), "");
    var name := EditorFile(title, code).name;
    assert forall i :: 0 <= i < |title| ==> name[i] == ToLower(title)[i];
  }
}
