/** Reading a printed tree back, and what the flag -f leaves out. */
module TreeProofs {
  import opened Text
  import opened TreePrinter

  // What a listing shows: labels and nesting.
  datatype Entry = Entry(title: string, kids: seq<Entry>)

  function Shown(fi: Node, printFiles: bool): Entry
    decreases Size(fi), 1, 0
  {
    Entry(Label(fi, printFiles), if fi.Dir? then AllShown(Visible(fi.kids, printFiles), printFiles) else [])
  }

  function AllShown(fis: seq<Node>, printFiles: bool): seq<Entry>
    decreases SizeAll(fis), 2, |fis|
  {
    if fis == [] then [] else [Shown(fis[0], printFiles)] + AllShown(fis[1..], printFiles)
  }

  /* The reader. It cuts the text into lines, takes off the padding units in front of the marker --
     a unit begins with a tab or a bar, a marker with neither -- and nests by depth. */
  function SplitLines(text: string, line: string): seq<string>
    decreases |text|
  {
    if text == "" then []
    else if text[0] == '\n' then [line] + SplitLines(text[1..], "")
    else SplitLines(text[1..], line + [text[0]])
  }

  function Strip(line: string): (nat, string)
    decreases |line|
  {
    if line != "" && line[0] == '\t' then var (d, rest) := Strip(line[1..]); (d + 1, rest)
    else if |line| >= 2 && line[0] == '\U{2502}' && line[1] == '\t' then var (d, rest) := Strip(line[2..]); (d + 1, rest)
    else (0, line)
  }

  function Depth(line: string): nat { Strip(line).0 }

  function LabelOf(line: string): string {
    var rest := Strip(line).1;
    if |rest| >= 4 then rest[4..] else ""
  }

  function Nest(lines: seq<string>, d: nat): (r: (seq<Entry>, seq<string>))
    ensures |r.1| <= |lines|
    decreases |lines|
  {
    if lines == [] || Depth(lines[0]) != d then ([], lines)
    else
      var (kids, rest) := Nest(lines[1..], d + 1);
      var (siblings, others) := Nest(rest, d);
      ([Entry(LabelOf(lines[0]), kids)] + siblings, others)
  }

  function Read(text: string): seq<Entry> { Nest(SplitLines(text, ""), 0).0 }

  // The padding below entries of which these were the last of their directory.
  function Pad(lasts: seq<bool>): string {
    if lasts == [] then "" else Deeper(Pad(lasts[..|lasts| - 1]), lasts[|lasts| - 1])
  }

  lemma StripUnit(last: bool, s: string)
    ensures Strip((if last then TAB else BAR) + s) == (1 + Strip(s).0, Strip(s).1)
  {
    if last {
      assert (TAB + s)[0] == '\t' && (TAB + s)[1..] == s;
    } else {
      assert (BAR + s)[0] == '\U{2502}' && (BAR + s)[1] == '\t' && (BAR + s)[2..] == s;
    }
  }

  function Marker(islast: bool): string { if islast then START_LAST_PADDING else START_PADDING }

  lemma StripMarker(islast: bool, s: string)
    ensures var line := Marker(islast) + s;
            Strip(line) == (0, line) && |line| >= 4 && line[4..] == s
  {
    if islast {
      assert (START_LAST_PADDING + s)[0] == '\U{2514}';
    } else {
      assert (START_PADDING + s)[0] == '\U{251C}';
    }
  }

  lemma {:induction false} StripPad(lasts: seq<bool>, s: string)
    ensures Strip(Pad(lasts) + s) == (|lasts| + Strip(s).0, Strip(s).1)
  {
    if lasts != [] {
      var last := lasts[|lasts| - 1];
      var u := (if last then TAB else BAR);
      assert Pad(lasts) + s == Pad(lasts[..|lasts| - 1]) + (u + s);
      StripUnit(last, s);
      StripPad(lasts[..|lasts| - 1], u + s);
    } else {
      assert "" + s == s;
    }
  }

  lemma LineShape(padding: string, fi: Node, printFiles: bool, islast: bool)
    ensures Line(padding, fi, printFiles, islast) == padding + (Marker(islast) + Label(fi, printFiles))
  {
    Associative(padding, Marker(islast), Label(fi, printFiles));
  }

  lemma LineIsRead(lasts: seq<bool>, fi: Node, printFiles: bool, islast: bool)
    ensures var line := Line(Pad(lasts), fi, printFiles, islast);
            Depth(line) == |lasts| && LabelOf(line) == Label(fi, printFiles)
  {
    LineShape(Pad(lasts), fi, printFiles, islast);
    StripMarker(islast, Label(fi, printFiles));
    StripPad(lasts, Marker(islast) + Label(fi, printFiles));
  }

  lemma DeeperPad(lasts: seq<bool>, islast: bool)
    ensures Deeper(Pad(lasts), islast) == Pad(lasts + [islast])
  {
    assert (lasts + [islast])[..|lasts|] == lasts;
  }

  // What follows a directory stands at a smaller depth.
  predicate Outside(tail: seq<string>, d: nat) { tail == [] || Depth(tail[0]) < d }

  // The lines under an entry that is a directory.
  function Below(padding: string, fi: Node, printFiles: bool, islast: bool): seq<string> {
    if fi.Dir? then AllLines(Deeper(padding, islast), Visible(fi.kids, printFiles), printFiles) else []
  }

  lemma AllLinesShape(padding: string, fis: seq<Node>, printFiles: bool, tail: seq<string>)
    requires fis != []
    ensures AllLines(padding, fis, printFiles) + tail ==
            [Line(padding, fis[0], printFiles, |fis| == 1)]
            + (Below(padding, fis[0], printFiles, |fis| == 1) + (AllLines(padding, fis[1..], printFiles) + tail))
  {
    var head, below := [Line(padding, fis[0], printFiles, |fis| == 1)], Below(padding, fis[0], printFiles, |fis| == 1);
    assert AllLines(padding, fis, printFiles) == head + below + AllLines(padding, fis[1..], printFiles);
    Regroup(head, below, AllLines(padding, fis[1..], printFiles), tail);
  }

  lemma NestStep(head: string, below: seq<string>, d: nat, kids: seq<Entry>, rest: seq<string>,
                 siblings: seq<Entry>, others: seq<string>)
    requires Depth(head) == d && Nest(below, d + 1) == (kids, rest) && Nest(rest, d) == (siblings, others)
    ensures Nest([head] + below, d) == ([Entry(LabelOf(head), kids)] + siblings, others)
  {
    assert ([head] + below)[1..] == below;
  }

  lemma {:induction false} NestLines(lasts: seq<bool>, fis: seq<Node>, printFiles: bool, tail: seq<string>)
    requires Outside(tail, |lasts|)
    ensures Nest(AllLines(Pad(lasts), fis, printFiles) + tail, |lasts|) == (AllShown(fis, printFiles), tail)
    decreases SizeAll(fis), |fis|
  {
    if fis == [] {
      assert [] + tail == tail;
    } else {
      var fi, islast := fis[0], |fis| == 1;
      var head := Line(Pad(lasts), fi, printFiles, islast);
      var below := Below(Pad(lasts), fi, printFiles, islast);
      var rest := AllLines(Pad(lasts), fis[1..], printFiles) + tail;
      LineIsRead(lasts, fi, printFiles, islast);
      NestLines(lasts, fis[1..], printFiles, tail);
      HeadDepth(lasts, fis[1..], printFiles, tail);
      NestBelow(lasts, fis, printFiles, rest);
      AllLinesShape(Pad(lasts), fis, printFiles, tail);
      NestStep(head, below + rest, |lasts|, Shown(fi, printFiles).kids, rest, AllShown(fis[1..], printFiles), tail);
    }
  }

  lemma {:induction false} NestBelow(lasts: seq<bool>, fis: seq<Node>, printFiles: bool, rest: seq<string>)
    requires fis != [] && Outside(rest, |lasts| + 1)
    ensures Nest(Below(Pad(lasts), fis[0], printFiles, |fis| == 1) + rest, |lasts| + 1)
         == (Shown(fis[0], printFiles).kids, rest)
    decreases SizeAll(fis), 0
  {
    var fi, islast := fis[0], |fis| == 1;
    if fi.Dir? {
      DeeperPad(lasts, islast);
      FirstIsLarger(fis);
      NestLines(lasts + [islast], Visible(fi.kids, printFiles), printFiles, rest);
    } else {
      assert [] + rest == rest;
    }
  }

  lemma HeadDepth(lasts: seq<bool>, fis: seq<Node>, printFiles: bool, tail: seq<string>)
    requires Outside(tail, |lasts|)
    ensures Outside(AllLines(Pad(lasts), fis, printFiles) + tail, |lasts| + 1)
  {
    if fis != [] {
      LineIsRead(lasts, fis[0], printFiles, |fis| == 1);
    }
  }

  lemma FirstIsLarger(fis: seq<Node>)
    requires fis != [] && fis[0].Dir?
    ensures SizeAll(fis[0].kids) < SizeAll(fis)
  {
    assert SizeAll(fis) == Size(fis[0]) + SizeAll(fis[1..]);
  }

  predicate NoNewline(s: string) { '\n' !in s }

  predicate CleanNames(fis: seq<Node>)
    decreases fis
  {
    forall i :: 0 <= i < |fis| ==> NoNewline(fis[i].name) && (fis[i].Dir? ==> CleanNames(fis[i].kids))
  }

  lemma VisibleClean(kids: seq<Node>, printFiles: bool)
    requires CleanNames(kids)
    ensures CleanNames(Visible(kids, printFiles))
  {
    var fis := Visible(kids, printFiles);
    forall i | 0 <= i < |fis| ensures NoNewline(fis[i].name) && (fis[i].Dir? ==> CleanNames(fis[i].kids)) {
      assert fis[i] in kids;
    }
  }

  lemma {:induction false} ItoaClean(n: nat)
    ensures NoNewline(Itoa(n))
  {
    if n >= 10 { ItoaClean(n / 10); }
  }

  lemma {:induction false} PadClean(lasts: seq<bool>)
    ensures NoNewline(Pad(lasts))
  {
    if lasts != [] { PadClean(lasts[..|lasts| - 1]); }
  }

  lemma LineClean(lasts: seq<bool>, fi: Node, printFiles: bool, islast: bool)
    requires NoNewline(fi.name)
    ensures NoNewline(Line(Pad(lasts), fi, printFiles, islast))
  {
    PadClean(lasts);
    if fi.File? { ItoaClean(fi.size); }
  }

  predicate AllClean(lines: seq<string>) { forall i :: 0 <= i < |lines| ==> NoNewline(lines[i]) }

  lemma {:induction false} LinesClean(lasts: seq<bool>, fis: seq<Node>, printFiles: bool)
    requires CleanNames(fis)
    ensures AllClean(AllLines(Pad(lasts), fis, printFiles))
    decreases SizeAll(fis), |fis|
  {
    if fis != [] {
      var fi, islast := fis[0], |fis| == 1;
      LineClean(lasts, fi, printFiles, islast);
      LinesClean(lasts, fis[1..], printFiles);
      if fi.Dir? {
        DeeperPad(lasts, islast);
        FirstIsLarger(fis);
        VisibleClean(fi.kids, printFiles);
        LinesClean(lasts + [islast], Visible(fi.kids, printFiles), printFiles);
      }
    }
  }

  lemma {:induction false} SplitLine(rest: string, line: string, after: string)
    requires NoNewline(rest)
    ensures SplitLines(rest + "\n" + after, line) == [line + rest] + SplitLines(after, "")
    decreases |rest|
  {
    var text := rest + "\n" + after;
    if rest == "" {
      assert text[1..] == after && line + "" == line;
    } else {
      assert text[1..] == rest[1..] + "\n" + after;
      assert (line + [rest[0]]) + rest[1..] == line + rest;
      SplitLine(rest[1..], line + [rest[0]], after);
    }
  }

  lemma {:induction false} SplitPrinted(lines: seq<string>)
    requires AllClean(lines)
    ensures SplitLines(Printed(lines), "") == lines
  {
    if lines != [] {
      SplitLine(lines[0], "", Printed(lines[1..]));
      SplitPrinted(lines[1..]);
      assert "" + lines[0] == lines[0];
    }
  }

  /** Printing can be undone: from the text of any tree whose names contain no newline the labelled
      forest is read back. */
  lemma ReadOutput(kids: seq<Node>, printFiles: bool)
    requires CleanNames(kids)
    ensures Read(Output(kids, printFiles)) == AllShown(Visible(kids, printFiles), printFiles)
  {
    var fis := Visible(kids, printFiles);
    var lines := AllLines("", fis, printFiles);
    VisibleClean(kids, printFiles);
    LinesClean([], fis, printFiles);
    SplitPrinted(lines);
    NestLines([], fis, printFiles, []);
    assert lines + [] == lines;
  }

  /** So two trees print alike only if they show the same. */
  lemma OutputIsUnambiguous(a: seq<Node>, b: seq<Node>, printFiles: bool)
    requires CleanNames(a) && CleanNames(b) && Output(a, printFiles) == Output(b, printFiles)
    ensures AllShown(Visible(a, printFiles), printFiles) == AllShown(Visible(b, printFiles), printFiles)
  {
    ReadOutput(a, printFiles);
    ReadOutput(b, printFiles);
  }

  // The tree without its files, at every level.
  function Pruned(fi: Node): Node
    decreases Size(fi), 1, 0
  {
    if fi.File? then fi else Dir(fi.name, PrunedAll(Visible(fi.kids, false)))
  }

  function PrunedAll(fis: seq<Node>): (r: seq<Node>)
    ensures |r| == |fis|
    decreases SizeAll(fis), 2, |fis|
  {
    if fis == [] then [] else [Pruned(fis[0])] + PrunedAll(fis[1..])
  }

  function Prune(kids: seq<Node>): seq<Node> { PrunedAll(Visible(kids, false)) }

  lemma {:induction false} PrunedLines(padding: string, fis: seq<Node>)
    requires forall i :: 0 <= i < |fis| ==> fis[i].Dir?
    ensures AllLines(padding, fis, false) == AllLines(padding, PrunedAll(fis), true)
    decreases SizeAll(fis), |fis|
  {
    if fis != [] {
      var fi, islast := fis[0], |fis| == 1;
      FirstIsLarger(fis);
      PrunedLines(Deeper(padding, islast), Visible(fi.kids, false));
      PrunedLines(padding, fis[1..]);
      assert PrunedAll(fis)[0] == Pruned(fi) && PrunedAll(fis)[1..] == PrunedAll(fis[1..]);
      assert Lines(padding, fi, false, islast) == Lines(padding, Pruned(fi), true, islast);
    }
  }

  /** Without -f the output is the full output of the tree without its files. */
  lemma DirectoriesOnly(kids: seq<Node>)
    ensures Output(kids, false) == Output(Prune(kids), true)
    ensures Visible(Prune(kids), false) == Prune(kids)
  {
    PrunedLines("", Visible(kids, false));
    PruneLeavesDirs(Visible(kids, false));
  }

  lemma {:induction false} PruneLeavesDirs(fis: seq<Node>)
    requires forall i :: 0 <= i < |fis| ==> fis[i].Dir?
    ensures Filtered(PrunedAll(fis), IS_DIR) == PrunedAll(fis)
  {
    if fis != [] {
      PruneLeavesDirs(fis[1..]);
      assert PrunedAll(fis)[1..] == PrunedAll(fis[1..]);
    }
  }

  /* What hw1.md shows: before an entry stand, for each directory it is in, a tab if that was the last of
     its own directory, and a bar and a tab if not; then its branch, its name, and for a file its size. */
  function Row(lasts: seq<bool>, fi: Node, printFiles: bool, islast: bool): string {
    Indent(lasts) + (if islast then "\U{2514}\U{2500}\U{2500}\U{2500}" else "\U{251C}\U{2500}\U{2500}\U{2500}")
    + (fi.name +
       if fi.Dir? || !printFiles then "" else if fi.size == 0 then " (empty)" else " (" + Itoa(fi.size) + "b)")
  }

  function Indent(lasts: seq<bool>): string {
    if lasts == [] then "" else Indent(lasts[..|lasts| - 1]) + if lasts[|lasts| - 1] then "\t" else "\U{2502}\t"
  }

  lemma SizeFrom(fis: seq<Node>, i: nat)
    requires i < |fis|
    ensures SizeAll(fis[i..]) == Size(fis[i]) + SizeAll(fis[i + 1..])
  {
    assert fis[i..][1..] == fis[i + 1..];
  }

  // The entries of a directory from the i-th on, each followed by what is in it.
  function Listing(lasts: seq<bool>, fis: seq<Node>, printFiles: bool, i: nat): seq<string>
    requires i <= |fis|
    decreases SizeAll(fis[i..]), |fis| - i
  {
    if i == |fis| then []
    else
      var islast := i + 1 == |fis|;
      assert SizeAll(fis[i..]) == Size(fis[i]) + SizeAll(fis[i + 1..]) by { SizeFrom(fis, i); }
      [Row(lasts, fis[i], printFiles, islast)]
      + (if fis[i].Dir? then Listing(lasts + [islast], Visible(fis[i].kids, printFiles), printFiles, 0) else [])
      + Listing(lasts, fis, printFiles, i + 1)
  }

  lemma {:induction false} PadIsIndent(lasts: seq<bool>)
    ensures Pad(lasts) == Indent(lasts)
  {
    if lasts != [] { PadIsIndent(lasts[..|lasts| - 1]); }
  }

  lemma {:induction false} LinesAreListing(lasts: seq<bool>, fis: seq<Node>, printFiles: bool, i: nat)
    requires i <= |fis|
    ensures AllLines(Pad(lasts), fis[i..], printFiles) == Listing(lasts, fis, printFiles, i)
    decreases SizeAll(fis[i..]), |fis| - i
  {
    if i < |fis| {
      var fi, islast := fis[i], i + 1 == |fis|;
      SizeFrom(fis, i);
      PadIsIndent(lasts);
      assert fis[i..][1..] == fis[i + 1..] && (|fis[i..]| == 1 <==> islast);
      LinesAreListing(lasts, fis, printFiles, i + 1);
      if fi.Dir? {
        DeeperPad(lasts, islast);
        LinesAreListing(lasts + [islast], Visible(fi.kids, printFiles), printFiles, 0);
      }
    }
  }

  /** The output is the listing of the tree, line by line. */
  lemma OutputIsListing(kids: seq<Node>, printFiles: bool)
    ensures Output(kids, printFiles) == Printed(Listing([], Visible(kids, printFiles), printFiles, 0))
  {
    var fis := Visible(kids, printFiles);
    assert fis[0..] == fis;
    LinesAreListing([], fis, printFiles, 0);
  }

  // What is left out, and that nothing else is: part by part, and of a single entry.
  lemma {:induction false} VisibleConcat(a: seq<Node>, b: seq<Node>, printFiles: bool)
    ensures Visible(a + b, printFiles) == Visible(a, printFiles) + Visible(b, printFiles)
    ensures forall n: Node :: Visible([n], printFiles) == if printFiles || n.Dir? then [n] else []
  {
    if !printFiles { FilteredConcat(a, b, IS_DIR); }
    forall n: Node ensures Visible([n], printFiles) == if printFiles || n.Dir? then [n] else [] {
      assert [n][1..] == [];
      assert Filtered([n], IS_DIR) == (if IS_DIR(n) then [n] else []) + Filtered([], IS_DIR);
    }
  }

  lemma {:induction false} FilteredConcat<T>(a: seq<T>, b: seq<T>, p: T -> bool)
    ensures Filtered(a + b, p) == Filtered(a, p) + Filtered(b, p)
    decreases |b|
  {
    if b == [] {
      assert a + b == a;
    } else {
      var init, x := b[..|b| - 1], b[|b| - 1];
      assert a + b == (a + init) + [x] && b == init + [x];
      FilteredConcat(a, init, p);
      FilteredSnoc(a + init, x, p);
      FilteredSnoc(init, x, p);
    }
  }
}
