/** HW/hw1_tree: printing a directory tree. The file system is a value; reading it never fails. */
module TreePrinter {
  import opened Text

  datatype Node = File(name: string, size: nat) | Dir(name: string, kids: seq<Node>)

  const START_PADDING := "\U{251C}\U{2500}\U{2500}\U{2500}"
  const START_LAST_PADDING := "\U{2514}\U{2500}\U{2500}\U{2500}"
  const BAR := "\U{2502}\t"
  const TAB := "\t"

  function Size(n: Node): nat { if n.File? then 1 else 1 + SizeAll(n.kids) }

  function SizeAll(ns: seq<Node>): nat { if ns == [] then 0 else Size(ns[0]) + SizeAll(ns[1..]) }

  function Filtered<T>(xs: seq<T>, p: T -> bool): seq<T> {
    if xs == [] then [] else (if p(xs[0]) then [xs[0]] else []) + Filtered(xs[1..], p)
  }

  lemma {:induction false} FilteredSnoc<T>(xs: seq<T>, x: T, p: T -> bool)
    ensures Filtered(xs + [x], p) == Filtered(xs, p) + if p(x) then [x] else []
  {
    if xs == [] {
      assert [] + [x] == [x] && [x][1..] == [];
    } else {
      assert (xs + [x])[1..] == xs[1..] + [x];
      FilteredSnoc(xs[1..], x, p);
      var head, rest, last := if p(xs[0]) then [xs[0]] else [], Filtered(xs[1..], p), if p(x) then [x] else [];
      assert head + (rest + last) == (head + rest) + last;
    }
  }

  const IS_DIR: Node -> bool := (n: Node) => n.Dir?

  // What readDir returns.
  function Visible(kids: seq<Node>, printFiles: bool): (r: seq<Node>)
    ensures SizeAll(r) <= SizeAll(kids)
    ensures !printFiles ==> forall i :: 0 <= i < |r| ==> r[i].Dir?
    ensures forall n :: n in r ==> n in kids
    decreases |kids|
  {
    if printFiles then kids
    else
      FilteredDirs(kids);
      Filtered(kids, IS_DIR)
  }

  lemma {:induction false} FilteredDirs(kids: seq<Node>)
    ensures SizeAll(Filtered(kids, IS_DIR)) <= SizeAll(kids)
    ensures forall n :: n in Filtered(kids, IS_DIR) ==> n.Dir? && n in kids
  {
    if kids != [] {
      FilteredDirs(kids[1..]);
      var rest := Filtered(kids[1..], IS_DIR);
      if kids[0].Dir? {
        assert Filtered(kids, IS_DIR) == [kids[0]] + rest;
        assert ([kids[0]] + rest)[1..] == rest;
      } else {
        assert Filtered(kids, IS_DIR) == rest;
      }
    }
  }

  /* The filter of the program: `res` is a slice of the array it reads, and the writes overtake
     nothing that is still to be read. */
  method Filter<T>(arr: array<T>, p: T -> bool) returns (n: nat)
    modifies arr
    ensures n <= arr.Length
    ensures arr[..n] == Filtered(old(arr[..]), p)
    ensures arr[n..] == old(arr[n..])
  {
    n := 0;
    ghost var all := arr[..];
    for i := 0 to arr.Length
      invariant n <= i
      invariant arr[..n] == Filtered(all[..i], p)
      invariant forall k :: n <= k < arr.Length ==> arr[k] == all[k]
    {
      var x := arr[i];
      assert all[..i + 1] == all[..i] + [x];
      FilteredSnoc(all[..i], x, p);
      if p(x) {
        arr[n] := x;
        n := n + 1;
      }
    }
    assert all[..arr.Length] == all;
  }

  method ReadDir(kids: seq<Node>, printFiles: bool) returns (fileInfos: seq<Node>)
    ensures fileInfos == Visible(kids, printFiles)
  {
    if printFiles { return kids; }
    var arr := new Node[|kids|](i requires 0 <= i < |kids| => kids[i]);
    assert arr[..] == kids;
    var n := Filter(arr, IS_DIR);
    fileInfos := arr[..n];
  }

  function Label(fi: Node, printFiles: bool): string {
    fi.name +
    if !printFiles || fi.Dir? then ""
    else if fi.size > 0 then " (" + Itoa(fi.size) + "b)"
    else " (empty)"
  }

  function Deeper(padding: string, islast: bool): string { padding + if islast then TAB else BAR }

  function Line(padding: string, fi: Node, printFiles: bool, islast: bool): string {
    padding + (if islast then START_LAST_PADDING else START_PADDING) + Label(fi, printFiles)
  }

  // The lines of one entry and everything under it.
  function Lines(padding: string, fi: Node, printFiles: bool, islast: bool): seq<string>
    decreases Size(fi), 1, 0
  {
    [Line(padding, fi, printFiles, islast)]
    + if fi.Dir? then AllLines(Deeper(padding, islast), Visible(fi.kids, printFiles), printFiles) else []
  }

  function AllLines(padding: string, fis: seq<Node>, printFiles: bool): seq<string>
    decreases SizeAll(fis), 2, |fis|
  {
    if fis == [] then []
    else Lines(padding, fis[0], printFiles, |fis| == 1) + AllLines(padding, fis[1..], printFiles)
  }

  // fmt.Fprintln of each line.
  function Printed(lines: seq<string>): string {
    if lines == [] then "" else lines[0] + "\n" + Printed(lines[1..])
  }

  function Output(kids: seq<Node>, printFiles: bool): string {
    Printed(AllLines("", Visible(kids, printFiles), printFiles))
  }

  lemma {:induction false} PrintedConcat(a: seq<string>, b: seq<string>)
    ensures Printed(a + b) == Printed(a) + Printed(b)
  {
    if a == [] {
      assert a + b == b;
    } else {
      assert (a + b)[1..] == a[1..] + b;
      PrintedConcat(a[1..], b);
    }
  }

  lemma {:induction false} AllLinesTake(padding: string, fis: seq<Node>, printFiles: bool, i: nat)
    requires i < |fis|
    ensures AllLines(padding, fis[i..], printFiles) ==
            Lines(padding, fis[i], printFiles, |fis| - 1 == i) + AllLines(padding, fis[i + 1..], printFiles)
  {
    assert fis[i..][1..] == fis[i + 1..];
  }

  lemma PrintedLines(padding: string, fi: Node, printFiles: bool, islast: bool)
    ensures Printed(Lines(padding, fi, printFiles, islast)) ==
            (Line(padding, fi, printFiles, islast) + "\n")
            + if fi.Dir? then Printed(AllLines(Deeper(padding, islast), Visible(fi.kids, printFiles), printFiles)) else ""
  {
    var first := [Line(padding, fi, printFiles, islast)];
    assert first[1..] == [];
    assert Printed(first) == Line(padding, fi, printFiles, islast) + "\n" + Printed([]);
    if fi.Dir? {
      PrintedConcat(first, AllLines(Deeper(padding, islast), Visible(fi.kids, printFiles), printFiles));
    } else {
      assert first + [] == first;
    }
  }

  class Writer {
    var text: string

    method Println(line: string)
      modifies this
      ensures text == old(text) + (line + "\n")
    {
      text := text + (line + "\n");
    }
  }

  lemma {:induction false} SizeOfElement(fis: seq<Node>, i: nat)
    requires i < |fis|
    ensures Size(fis[i]) <= SizeAll(fis)
  {
    if i > 0 { SizeOfElement(fis[1..], i - 1); }
  }

  method Format(padding: string, fi: Node, printFiles: bool, islast: bool) returns (printStr: string)
    ensures printStr == Line(padding, fi, printFiles, islast)
  {
    if islast {
      printStr := padding + START_LAST_PADDING + fi.name;
    } else {
      printStr := padding + START_PADDING + fi.name;
    }
    if printFiles && !fi.Dir? {
      if fi.size > 0 {
        printStr := printStr + (" (" + Itoa(fi.size) + "b)");
      } else {
        printStr := printStr + " (empty)";
      }
    }
  }

  method PrintTree(out: Writer, padding: string, fi: Node, printFiles: bool, islast: bool)
    modifies out
    ensures out.text == old(out.text) + Printed(Lines(padding, fi, printFiles, islast))
    decreases Size(fi)
  {
    var printStr := Format(padding, fi, printFiles, islast);
    out.Println(printStr);
    PrintedLines(padding, fi, printFiles, islast);
    if fi.Dir? {
      var fileInfos := ReadDir(fi.kids, printFiles);
      var newpadding := Deeper(padding, islast);
      PrintAll(out, newpadding, fileInfos, printFiles, Size(fi));
      Associative(old(out.text), printStr + "\n", Printed(AllLines(newpadding, fileInfos, printFiles)));
    }
  }

  // One turn of the loop below.
  lemma PrintedTake(text: string, padding: string, fis: seq<Node>, printFiles: bool, i: nat)
    requires i < |fis|
    ensures text + Printed(AllLines(padding, fis[i..], printFiles)) ==
            text + Printed(Lines(padding, fis[i], printFiles, |fis| - 1 == i))
            + Printed(AllLines(padding, fis[i + 1..], printFiles))
  {
    AllLinesTake(padding, fis, printFiles, i);
    var a, b := Lines(padding, fis[i], printFiles, |fis| - 1 == i), AllLines(padding, fis[i + 1..], printFiles);
    PrintedConcat(a, b);
    Associative(text, Printed(a), Printed(b));
  }

  // The loop over the entries of a directory, in printTree and in dirTree. `bound` only serves the
  // termination of the recursion.
  method PrintAll(out: Writer, padding: string, fis: seq<Node>, printFiles: bool, ghost bound: nat)
    requires SizeAll(fis) < bound
    modifies out
    ensures out.text == old(out.text) + Printed(AllLines(padding, fis, printFiles))
    decreases bound, 0
  {
    ghost var goal := old(out.text) + Printed(AllLines(padding, fis, printFiles));
    assert fis[0..] == fis;
    for i := 0 to |fis|
      invariant out.text + Printed(AllLines(padding, fis[i..], printFiles)) == goal
    {
      SizeOfElement(fis, i);
      PrintedTake(out.text, padding, fis, printFiles, i);
      PrintTree(out, padding, fis[i], printFiles, |fis| - 1 == i);
    }
    assert fis[|fis|..] == [];
  }

  method DirTree(out: Writer, kids: seq<Node>, printFiles: bool)
    modifies out
    ensures out.text == old(out.text) + Output(kids, printFiles)
  {
    var fileInfos := ReadDir(kids, printFiles);
    PrintAll(out, "", fileInfos, printFiles, SizeAll(fileInfos) + 1);
  }
}
