/**
  The featured cube: six faces, each streaming one of three project files one
  character per tick into a window that keeps only the last 140 characters,
  and clearing itself to start over once the file is exhausted.
 */
module Cube {
  import Text
  import Editor

  /** Characters a face shows at most. */
  const MaxChars: nat := 140

  const FaceCount: nat := 6

  /** `slice(-n)` for `n > 0`, and the empty tail for `n == 0`: the last `n` characters, or all of a shorter text. */
  function Tail(s: string, n: nat): (r: string)
    ensures |r| == if |s| <= n then |s| else n
    ensures r == s[|s| - |r|..]
  {
    if |s| <= n then s else s[|s| - n..]
  }

  /** What a face shows after streaming `p`. */
  function Window(p: string): string {
    Tail(p, MaxChars)
  }

  /** Keeping the tail after each appended character is the same as keeping the tail once at the end. */
  lemma TailAppend(p: string, c: char, n: nat)
    ensures Tail(Tail(p, n) + [c], n) == Tail(p + [c], n)
  {
    var t := Tail(p, n);
    if |p| > n {
      assert (p + [c])[|p| + 1 - n..] == (t + [c])[|t| + 1 - n..];
    }
  }

  /** One tick's new text for a face whose text is `prev` and whose next character is `c`. */
  function TickText(prev: string, c: char): string {
    Tail(prev + [c], MaxChars)
  }

  /** A tick moves the window of `p` to the window of `p` plus the next character. */
  lemma WindowStep(p: string, c: char)
    ensures TickText(Window(p), c) == Window(p + [c])
    ensures |TickText(Window(p), c)| <= MaxChars
  {
    TailAppend(p, c, MaxChars);
  }

  /**
    A face's text after one tick at position `k` of `content`: the next
    character appended and only the last 140 kept, or, at the end of the
    file, the empty text.
   */
  function NextText(text: string, content: string, k: nat): string {
    if k < |content| then TickText(text, content[k]) else ""
  }

  /** A face's position after one tick: one further, or back to the start at the end of the file. */
  function NextPos(content: string, k: nat): nat {
    if k < |content| then k + 1 else 0
  }

  /** A face's text and position after `n` ticks from the empty text at position 0. */
  function Run(content: string, n: nat): (string, nat) {
    if n == 0 then ("", 0)
    else
      var prev := Run(content, n - 1);
      (NextText(prev.0, content, prev.1), NextPos(content, prev.1))
  }

  /**
    After `n` ticks of a pass that started from the empty text, a face shows
    exactly the window of the first `n` characters of its file; one tick
    after the last character it is empty and back at the start.
   */
  lemma {:induction false} RunShowsWindow(content: string, n: nat)
    requires n <= |content|
    ensures Run(content, n) == (Window(content[..n]), n)
    ensures |Run(content, n).0| <= MaxChars
    ensures n == |content| ==> Run(content, n + 1) == ("", 0)
  {
    if n > 0 {
      RunShowsWindow(content, n - 1);
      RunStep(content, n);
    } else {
      assert content[..0] == "";
    }
    if n == |content| {
      RunRestarts(content, n);
    }
  }

  /** One tick inside the file extends the shown prefix by one character. */
  lemma RunStep(content: string, n: nat)
    requires 0 < n <= |content|
    requires Run(content, n - 1) == (Window(content[..n - 1]), n - 1)
    ensures Run(content, n) == (Window(content[..n]), n)
  {
    var p, c := content[..n - 1], content[n - 1];
    SliceSnoc(content, 0, n - 1);
    WindowStep(p, c);
    assert Run(content, n) == (TickText(Window(p), c), n);
  }

  /** A slice followed by the next character is the slice one longer. */
  lemma SliceSnoc(s: string, i: nat, j: nat)
    requires i <= j < |s|
    ensures s[i..j] + [s[j]] == s[i..j + 1]
  {
  }

  /** The tick after the last character empties the face and returns to the start. */
  lemma RunRestarts(content: string, n: nat)
    requires n == |content| && Run(content, n).1 == n
    ensures Run(content, n + 1) == ("", 0)
  {
  }

  /**
    A face's text after one tick when React runs the state updater only after
    the interval callback has moved `charIndex` on: the updater then reads the
    character one further, and past the last character JavaScript's
    `undefined`, appended as that word.
   */
  function QueuedNextText(text: string, content: string, k: nat): string {
    if k < |content| then
      if k + 1 < |content| then TickText(text, content[k + 1]) else Tail(text + "undefined", MaxChars)
    else ""
  }

  /** `Run` with every updater queued behind the index increment. */
  function QueuedRun(content: string, n: nat): (string, nat) {
    if n == 0 then ("", 0)
    else
      var prev := QueuedRun(content, n - 1);
      (QueuedNextText(prev.0, content, prev.1), NextPos(content, prev.1))
  }

  /**
    With queued updaters a face shows the window of its file shifted by one:
    after `n` ticks, the characters 1 to `n` instead of 0 to `n - 1`, so the
    first character never appears.
   */
  lemma {:induction false} QueuedRunReadsAhead(content: string, n: nat)
    requires n < |content|
    ensures QueuedRun(content, n) == (Window(content[1..n + 1]), n)
  {
    if n > 0 {
      QueuedRunReadsAhead(content, n - 1);
      QueuedRunStep(content, n);
    } else {
      assert content[1..1] == "";
    }
  }

  /** One queued tick inside the file extends the shown slice by the character after the index. */
  lemma QueuedRunStep(content: string, n: nat)
    requires 0 < n < |content|
    requires QueuedRun(content, n - 1) == (Window(content[1..n]), n - 1)
    ensures QueuedRun(content, n) == (Window(content[1..n + 1]), n)
  {
    var p, c := content[1..n], content[n];
    SliceSnoc(content, 1, n);
    WindowStep(p, c);
    assert QueuedRun(content, n) == (TickText(Window(p), c), n);
  }

  /** With queued updaters, the last tick of a pass leaves the face ending in the text `undefined`. */
  lemma QueuedRunEndsUndefined(content: string)
    requires |content| > 0
    ensures var t := QueuedRun(content, |content|).0; |t| >= 9 && t[|t| - 9..] == "undefined"
  {
    QueuedRunReadsAhead(content, |content| - 1);
    var prev := QueuedRun(content, |content| - 1);
    var s := prev.0 + "undefined";
    var t := Tail(s, MaxChars);
    assert QueuedRun(content, |content|).0 == t;
    assert t[|t| - 9..] == s[|s| - 9..];
  }

  /** On the file "ab": applied at the call, the face shows "a" then "ab"; queued, it shows "b" then "bundefined". */
  lemma QueuedUpdaterCounterexample()
    ensures Run("ab", 1).0 == "a" && Run("ab", 2).0 == "ab"
    ensures QueuedRun("ab", 1).0 == "b" && QueuedRun("ab", 2).0 == "bundefined"
  {
    AppliedRunOnTwo('a', 'b');
    QueuedRunOnTwo('a', 'b');
    assert ['b'] + "undefined" == "bundefined";
  }

  /** A two-character file, updates applied at the call: its first character, then both. */
  lemma AppliedRunOnTwo(x: char, y: char)
    ensures Run([x, y], 1) == ([x], 1) && Run([x, y], 2).0 == [x, y]
  {
    var c := [x, y];
    assert Run(c, 1) == (TickText("", x), 1);
    assert Run(c, 2).0 == TickText([x], y);
  }

  /** A two-character file, updaters queued: its second character, then that and `undefined`. */
  lemma QueuedRunOnTwo(x: char, y: char)
    ensures QueuedRun([x, y], 1) == ([y], 1) && QueuedRun([x, y], 2).0 == [y] + "undefined"
  {
    var c := [x, y];
    assert QueuedRun(c, 1) == (TickText("", y), 1);
    assert QueuedRun(c, 2).0 == Tail([y] + "undefined", MaxChars);
  }

  /** The names of the showcased project's three files, in order. */
  const FileNames: seq<string> := ["index.html", "styles.css", "main.js"]

  /** The labels under the six faces. */
  const FaceLabels: seq<string> := ["index.html", "styles.css", "main.js", "index.html", "styles.css", "main.js"]

  /** The file a face streams. */
  function FaceFile(face: nat): nat {
    face % 3
  }

  /** What each face streams: the three files, then the three again. */
  function FaceContents(files: seq<Editor.CodeFile>): (r: seq<string>)
    requires |files| == 3
    ensures |r| == FaceCount
  {
    [files[0].content, files[1].content, files[2].content, files[0].content, files[1].content, files[2].content]
  }

  /** Face `i` streams file `i % 3`, so opposite halves of the cube show the same file under the same label. */
  lemma FacesStreamTheirFiles(files: seq<Editor.CodeFile>)
    requires |files| == 3
    ensures forall face :: 0 <= face < FaceCount ==> FaceContents(files)[face] == files[FaceFile(face)].content
    ensures forall face :: 0 <= face < FaceCount ==> FaceLabels[face] == FileNames[FaceFile(face)]
    ensures forall face :: 0 <= face < FaceCount ==> FaceFile(face) == if face < 3 then face else face - 3
  {
    var contents := FaceContents(files);
    forall face | 0 <= face < FaceCount
      ensures contents[face] == files[FaceFile(face)].content
      ensures FaceLabels[face] == FileNames[FaceFile(face)]
    {
      if face < 3 {
        assert FaceFile(face) == face;
      } else {
        assert FaceFile(face) == face - 3;
      }
    }
  }

  /** The `/* name */` line put above a file in the copied text. */
  function Header(name: string): string {
    "/* " + name + " */\n"
  }

  /** The text copied by "copy project": each file under its header, a blank line between files. */
  function CopyText(files: seq<Editor.CodeFile>): string
    requires |files| == 3
  {
    Header("index.html") + files[0].content + "\n\n" + Header("styles.css") + files[1].content + "\n\n" + Header("main.js") + files[2].content
  }

  /** One file under its own header. */
  function Section(f: Editor.CodeFile): string {
    Header(f.name) + f.content
  }

  /** For the project's own file names, the copied text is the files' sections joined by blank lines. */
  lemma CopyTextIsSections(files: seq<Editor.CodeFile>)
    requires |files| == 3
    requires forall i :: 0 <= i < 3 ==> files[i].name == FileNames[i]
    ensures CopyText(files) == Text.Join([Section(files[0]), Section(files[1]), Section(files[2])], "\n\n")
  {
    var s0, s1, s2 := Section(files[0]), Section(files[1]), Section(files[2]);
    assert files[0].name == "index.html" && files[1].name == "styles.css" && files[2].name == "main.js";
    assert [s0, s1, s2][1..] == [s1, s2];
    assert [s1, s2][1..] == [s2];
    calc {
      Text.Join([s0, s1, s2], "\n\n");
      s0 + "\n\n" + Text.Join([s1, s2], "\n\n");
      s0 + "\n\n" + (s1 + "\n\n" + s2);
    }
  }

  class FeaturedCube {
    /** The six faces' texts. */
    var faceTexts: array<string>
    /** Each face's position in its file. */
    var charIndex: array<nat>
    /** What each face streams. */
    const contents: seq<string>

    /**
      Every face shows the window of the part of its file streamed so far in
      the current pass.
     */
    ghost predicate Valid()
      reads this, faceTexts, charIndex
    {
      faceTexts.Length == FaceCount && charIndex.Length == FaceCount && |contents| == FaceCount &&
      forall i :: 0 <= i < FaceCount ==>
        charIndex[i] <= |contents[i]| && faceTexts[i] == Window(contents[i][..charIndex[i]])
    }

    constructor (files: seq<Editor.CodeFile>)
      requires |files| == 3
      ensures Valid()
      ensures contents == FaceContents(files)
      ensures fresh(faceTexts) && fresh(charIndex)
      ensures forall i :: 0 <= i < FaceCount ==> faceTexts[i] == "" && charIndex[i] == 0
    {
      contents := FaceContents(files);
      faceTexts := new string[FaceCount](_ => "");
      charIndex := new nat[FaceCount](_ => 0);
    }

    /**
      One interval tick of face `face`; no other face changes.
     */
    method Tick(face: nat)
      requires Valid() && face < FaceCount
      modifies faceTexts, charIndex
      ensures Valid()
      ensures faceTexts[..] == old(faceTexts[..])[face := NextText(old(faceTexts[face]), contents[face], old(charIndex[face]))]
      ensures charIndex[..] == old(charIndex[..])[face := NextPos(contents[face], old(charIndex[face]))]
      ensures |faceTexts[face]| <= MaxChars
    {
      var content := contents[face];
      var k := charIndex[face];
      if k < |content| {
        WindowStep(content[..k], content[k]);
        assert content[..k] + [content[k]] == content[..k + 1];
        faceTexts[face] := TickText(faceTexts[face], content[k]);
        charIndex[face] := k + 1;
      } else {
        charIndex[face] := 0;
        faceTexts[face] := "";
      }
    }
  }
}
