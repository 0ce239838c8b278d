/**
  The code viewer: tabs over a list of files, the HTML-escaping stage of its
  syntax highlighter, the line-number gutter, the minimap, the status bar
  and the copy button.
 */
module Editor {
  import opened Text

  /** A file shown in the viewer. */
  datatype CodeFile = CodeFile(name: string, content: string)

  // --------------------------------------------------------------- escaping

  /** The escaping stage of the highlighter: `&`, then `<`, then `>` replaced by their entities. */
  function Escape(code: string): string {
    ReplaceAll(ReplaceAll(ReplaceAll(code, "&", "&amp;"), "<", "&lt;"), ">", "&gt;")
  }

  /** The entity one character becomes, or the character itself. */
  function EscapeChar(c: char): string {
    if c == '&' then "&amp;"
    else if c == '<' then "&lt;"
    else if c == '>' then "&gt;"
    else [c]
  }

  /** Escaping character by character. */
  function EscapeEach(s: string): string {
    if s == [] then "" else EscapeChar(s[0]) + EscapeEach(s[1..])
  }

  /** The three passes in a row, each over whole text. */
  function Passes(s: string): string {
    ReplaceChar(ReplaceChar(ReplaceChar(s, '&', "&amp;"), '<', "&lt;"), '>', "&gt;")
  }

  lemma ReplaceOne(c: char, d: char, rep: string)
    ensures ReplaceChar([c], d, rep) == if c == d then rep else [c]
  {
    assert [c][1..] == [];
  }

  lemma PassesOneChar(c: char)
    ensures Passes([c]) == EscapeChar(c)
  {
    ReplaceOne(c, '&', "&amp;");
    if c == '&' {
      ReplaceCharAbsent("&amp;", '<', "&lt;");
      ReplaceCharAbsent("&amp;", '>', "&gt;");
    } else {
      ReplaceOne(c, '<', "&lt;");
      if c == '<' {
        ReplaceCharAbsent("&lt;", '>', "&gt;");
      } else {
        ReplaceOne(c, '>', "&gt;");
      }
    }
  }

  lemma {:induction false} PassesAreCharwise(s: string)
    ensures Passes(s) == EscapeEach(s)
  {
    if s != [] {
      assert s == [s[0]] + s[1..];
      var a := ReplaceChar([s[0]], '&', "&amp;");
      var b := ReplaceChar(s[1..], '&', "&amp;");
      ReplaceCharAppend([s[0]], s[1..], '&', "&amp;");
      ReplaceCharAppend(a, b, '<', "&lt;");
      ReplaceCharAppend(ReplaceChar(a, '<', "&lt;"), ReplaceChar(b, '<', "&lt;"), '>', "&gt;");
      PassesOneChar(s[0]);
      PassesAreCharwise(s[1..]);
    }
  }

  /**
    Because `&` goes first, the entities the later passes insert are not
    escaped again: the escaped text is each character's own entity, in order.
   */
  lemma EscapeIsCharwise(code: string)
    ensures Escape(code) == EscapeEach(code)
  {
    var one := ReplaceAll(code, "&", "&amp;");
    var two := ReplaceAll(one, "<", "&lt;");
    ReplaceAllSingle(code, '&', "&amp;");
    ReplaceAllSingle(one, '<', "&lt;");
    ReplaceAllSingle(two, '>', "&gt;");
    PassesAreCharwise(code);
  }

  /** Decoding of the three entities, left to right; every other character stands for itself. */
  function Unescape(s: string): string
    decreases |s|
  {
    if s == [] then ""
    else if |s| >= 5 && s[..5] == "&amp;" then "&" + Unescape(s[5..])
    else if |s| >= 4 && s[..4] == "&lt;" then "<" + Unescape(s[4..])
    else if |s| >= 4 && s[..4] == "&gt;" then ">" + Unescape(s[4..])
    else [s[0]] + Unescape(s[1..])
  }

  lemma UnescapeOneChar(c: char, rest: string)
    ensures Unescape(EscapeChar(c) + rest) == [c] + Unescape(rest)
  {
    var s := EscapeChar(c) + rest;
    if c == '&' {
      assert s[..5] == "&amp;" && s[5..] == rest;
    } else if c == '<' {
      assert s[1] == 'l';
      assert |s| >= 5 ==> s[..5][1] == 'l';
      assert s[..4] == "&lt;" && s[4..] == rest;
    } else if c == '>' {
      assert s[1] == 'g';
      assert |s| >= 5 ==> s[..5][1] == 'g';
      assert s[..4][1] == 'g';
      assert s[..4] == "&gt;" && s[4..] == rest;
    } else {
      assert s[0] == c && s[1..] == rest;
      assert |s| >= 5 ==> s[..5][0] == c;
      assert |s| >= 4 ==> s[..4][0] == c;
    }
  }

  /** Un-escaping gives back exactly the code that was escaped. */
  lemma {:induction false} UnescapeEscape(code: string)
    ensures Unescape(Escape(code)) == code
  {
    EscapeIsCharwise(code);
    UnescapeEscapeEach(code);
  }

  lemma {:induction false} UnescapeEscapeEach(code: string)
    ensures Unescape(EscapeEach(code)) == code
  {
    if code != [] {
      UnescapeOneChar(code[0], EscapeEach(code[1..]));
      UnescapeEscapeEach(code[1..]);
    }
  }

  /** No angle bracket survives the escaping stage. */
  lemma {:induction false} EscapeRemovesBrackets(code: string)
    ensures forall i :: 0 <= i < |Escape(code)| ==> Escape(code)[i] != '<' && Escape(code)[i] != '>'
  {
    EscapeIsCharwise(code);
    EachHasNoBrackets(code);
  }

  lemma {:induction false} EachHasNoBrackets(code: string)
    ensures forall i :: 0 <= i < |EscapeEach(code)| ==> EscapeEach(code)[i] != '<' && EscapeEach(code)[i] != '>'
  {
    if code != [] {
      EachHasNoBrackets(code[1..]);
      var head, tail := EscapeChar(code[0]), EscapeEach(code[1..]);
      assert EscapeEach(code) == head + tail;
      assert forall i :: 0 <= i < |head| ==> head[i] != '<' && head[i] != '>';
    }
  }

  /** Escaping `<` before `&` would escape the new entity's ampersand a second time. */
  lemma OrderMatters()
    ensures ReplaceAll(ReplaceAll("<", "<", "&lt;"), "&", "&amp;") == "&amp;lt;"
  {
    var lt, amp := "&lt;", "&amp;";
    var first := ReplaceAll("<", "<", lt);
    assert first == lt by {
      ReplaceAllSingle("<", '<', lt);
      ReplaceOne('<', '<', lt);
    }
    var tail := "lt;";
    assert ReplaceChar(tail, '&', amp) == tail by {
      ReplaceCharAbsent(tail, '&', amp);
    }
    assert ReplaceChar(lt, '&', amp) == amp + tail by {
      assert lt == "&" + tail;
      ReplaceCharAppend("&", tail, '&', amp);
      ReplaceOne('&', '&', amp);
    }
    assert ReplaceAll(first, "&", amp) == ReplaceChar(lt, '&', amp) by {
      ReplaceAllSingle(lt, '&', amp);
    }
    assert amp + tail == "&amp;lt;";
  }

  // ------------------------------------------------------------ gutter etc.

  /** How many rows the gutter shows: the pieces of the content split at line breaks. */
  function LineCount(content: string): nat {
    |Split(content, "\n")|
  }

  /** The gutter's row labels, 1 to the line count. */
  function LineNumbers(content: string): (r: seq<nat>)
    ensures |r| == LineCount(content)
    ensures forall i :: 0 <= i < |r| ==> r[i] == i + 1
  {
    seq(LineCount(content), i => i + 1)
  }

  /** The gutter has one row more than the content has line breaks. */
  lemma LineCountIsBreaksPlusOne(content: string)
    ensures LineCount(content) == CountChar(content, '\n') + 1
    ensures |LineNumbers(content)| >= 1
  {
    SplitCharCount(content, '\n');
  }

  /** The minimap's text: at most the first 5000 characters. */
  function Minimap(content: string): (r: string)
    ensures |r| <= 5000 && |r| <= |content|
    ensures r == content[..|r|]
    ensures |content| <= 5000 ==> r == content
  {
    if |content| <= 5000 then content else content[..5000]
  }

  /** `endsWith` */
  predicate EndsWith(s: string, suffix: string) {
    |suffix| <= |s| && s[|s| - |suffix|..] == suffix
  }

  /** The icon of a file's tab. */
  function TabIcon(name: string): string {
    if EndsWith(name, ".html") then "fa-code" else if EndsWith(name, ".css") then "fa-css3" else "fa-js"
  }

  /** `.html` files get the code icon, `.css` files the CSS icon, and every other name the JavaScript icon. */
  lemma TabIconByExtension(stem: string, name: string)
    ensures TabIcon(stem + ".html") == "fa-code"
    ensures TabIcon(stem + ".css") == "fa-css3"
    ensures !EndsWith(name, ".html") && !EndsWith(name, ".css") ==> TabIcon(name) == "fa-js"
  {
    var css := stem + ".css";
    assert css[|css| - 4..] == ".css";
    assert !EndsWith(css, ".html") by {
      if |css| >= 5 {
        assert css[|css| - 5..][1] == css[|css| - 4] == '.';
      }
    }
    var html := stem + ".html";
    assert html[|html| - 5..] == ".html";
  }

  /** What the open viewer shows for its active file. */
  datatype View = View(tabName: string, gutter: seq<nat>, minimap: string, statusChars: nat, statusName: string)

  function ViewOf(f: CodeFile): (v: View)
    ensures v.statusChars == |f.content| && v.statusName == f.name && v.tabName == f.name
    ensures v.gutter == LineNumbers(f.content) && v.minimap == Minimap(f.content)
  {
    View(f.name, LineNumbers(f.content), Minimap(f.content), |f.content|, f.name)
  }

  /** The status bar reports the whole length even when the minimap is cut off. */
  lemma StatusCountsWholeFile(f: CodeFile)
    requires |f.content| > 5000
    ensures ViewOf(f).statusChars > |ViewOf(f).minimap|
    ensures |ViewOf(f).minimap| == 5000
  {
  }

  // ---------------------------------------------------------------- modal

  class CodeEditorModal {
    const files: seq<CodeFile>
    var isOpen: bool
    var activeFileIndex: nat
    var copied: bool
    /** What the last copy wrote to the clipboard. */
    var clipboard: string

    /** The active tab is one of the files. */
    ghost predicate Valid()
      reads this
    {
      |files| > 0 && activeFileIndex < |files|
    }

    constructor (files: seq<CodeFile>)
      requires |files| > 0
      ensures Valid() && this.files == files
      ensures !isOpen && activeFileIndex == 0 && !copied && clipboard == ""
    {
      this.files := files;
      isOpen := false;
      activeFileIndex := 0;
      copied := false;
      clipboard := "";
    }

    /** Opening resets the active tab to the first file; closing keeps it. */
    method SetOpen(open: bool)
      requires Valid()
      modifies this
      ensures Valid()
      ensures isOpen == open
      ensures open ==> activeFileIndex == 0
      ensures !open ==> activeFileIndex == old(activeFileIndex)
      ensures copied == old(copied) && clipboard == old(clipboard)
    {
      isOpen := open;
      if open {
        activeFileIndex := 0;
      }
    }

    /** Clicking tab `idx` makes it the active one. */
    method ClickTab(idx: nat)
      requires Valid() && idx < |files|
      modifies this
      ensures Valid()
      ensures activeFileIndex == idx
      ensures isOpen == old(isOpen) && copied == old(copied) && clipboard == old(clipboard)
    {
      activeFileIndex := idx;
    }

    /** Copy writes exactly the active file's content and shows "COPIED!". */
    method Copy()
      requires Valid()
      modifies this
      ensures Valid()
      ensures clipboard == files[activeFileIndex].content && copied
      ensures activeFileIndex == old(activeFileIndex) && isOpen == old(isOpen)
    {
      clipboard := files[activeFileIndex].content;
      copied := true;
    }

    /** Two seconds after a copy the button shows "COPY_ALL" again. */
    method CopiedTimeout()
      requires Valid()
      modifies this
      ensures Valid()
      ensures !copied
      ensures activeFileIndex == old(activeFileIndex) && isOpen == old(isOpen) && clipboard == old(clipboard)
    {
      copied := false;
    }

    /** What the modal renders: nothing when closed, the active file's view when open. */
    function Render(): (r: Wrappers.Option<View>)
      requires Valid()
      reads this
      ensures r.None? <==> !isOpen
      ensures r.Some? ==> r.value == ViewOf(files[activeFileIndex])
    {
      if !isOpen then Wrappers.None else Wrappers.Some(ViewOf(files[activeFileIndex]))
    }

    /** The copy button's caption. */
    function CopyCaption(): string
      reads this
    {
      if copied then "COPIED!" else "COPY_ALL"
    }
  }
}
