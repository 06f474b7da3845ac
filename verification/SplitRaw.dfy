/** Splitting a capture at its case markers and distributing the cases over category files. */
module SplitRaw {

  const MARKER := "B4D12_CASE "

  predicate MarkerAt(text: string, i: nat) {
    i + |MARKER| <= |text| && text[i..i + |MARKER|] == MARKER
  }

  ghost predicate MarkerFree(text: string) {
    forall i: nat :: !MarkerAt(text, i)
  }

  /** The first marker at or after a position, or the length of the text. */
  function Find(text: string, from: nat): (i: nat)
    requires from <= |text|
    ensures from <= i <= |text|
    ensures i < |text| ==> MarkerAt(text, i)
    ensures forall j: nat :: from <= j < i ==> !MarkerAt(text, j)
    decreases |text| - from
  {
    if from == |text| || MarkerAt(text, from) then from else Find(text, from + 1)
  }

  /** `text.split(MARKER)`. */
  function Split(text: string): (parts: seq<string>)
    ensures parts != []
    decreases |text|
  {
    var i := Find(text, 0);
    if i == |text| then [text] else [text[..i]] + Split(text[i + |MARKER|..])
  }

  /** The parts with the marker put back between them. */
  function Join(parts: seq<string>): string
    requires parts != []
  {
    if |parts| == 1 then parts[0] else parts[0] + MARKER + Join(parts[1..])
  }

  ghost predicate AllMarkerFree(parts: seq<string>) {
    forall i :: 0 <= i < |parts| ==> MarkerFree(parts[i])
  }

  /** Nothing of the capture is lost: the preamble and every marked segment concatenate back to it. */
  lemma {:induction false} JoinSplit(text: string)
    ensures Join(Split(text)) == text
    decreases |text|
  {
    var i := Find(text, 0);
    if i < |text| {
      var rest := text[i + |MARKER|..];
      JoinSplit(rest);
      assert text == text[..i] + text[i..i + |MARKER|] + rest;
    }
  }

  lemma PrefixMarkerFree(text: string, i: nat)
    requires i <= |text| && forall j: nat :: j < i ==> !MarkerAt(text, j)
    ensures MarkerFree(text[..i])
  {
    forall j: nat ensures !MarkerAt(text[..i], j) {
      if MarkerAt(text[..i], j) {
        assert text[..i][j..j + |MARKER|] == text[j..j + |MARKER|];
        assert MarkerAt(text, j);
      }
    }
  }

  lemma {:induction false} SplitMarkerFree(text: string)
    ensures AllMarkerFree(Split(text))
    decreases |text|
  {
    var i := Find(text, 0);
    PrefixMarkerFree(text, i);
    if i < |text| {
      SplitMarkerFree(text[i + |MARKER|..]);
    } else {
      assert text[..i] == text;
    }
  }

  /** The marker's first letter does not occur again in it, so markers cannot overlap. */
  lemma FirstLetterOnce(j: nat)
    requires 0 < j < |MARKER|
    ensures MARKER[j] != 'B'
  {
  }

  /** A marker-free text stays so up to a 'B' that follows it. */
  lemma NoMarkerAcross(a: string, b: string, j: nat)
    requires MarkerFree(a) && b != [] && b[0] == 'B' && j < |a|
    ensures !MarkerAt(a + b, j)
  {
    if j + |MARKER| <= |a| {
      assert (a + b)[j..j + |MARKER|] == a[j..j + |MARKER|];
      assert MarkerAt(a + b, j) == MarkerAt(a, j);
    } else if j + |MARKER| <= |a + b| {
      FirstLetterOnce(|a| - j);
      assert (a + b)[j..j + |MARKER|][|a| - j] == b[0];
    }
  }

  lemma SplitFirst(first: string, rest: string)
    requires MarkerFree(first)
    ensures Split(first + MARKER + rest) == [first] + Split(rest)
  {
    var text := first + MARKER + rest;
    var i := Find(text, 0);
    assert text == first + (MARKER + rest);
    assert text[|first|..|first| + |MARKER|] == MARKER;
    assert MarkerAt(text, |first|);
    forall j: nat | j < |first| ensures !MarkerAt(text, j) {
      NoMarkerAcross(first, MARKER + rest, j);
    }
    assert i == |first|;
    assert text[..i] == first && text[i + |MARKER|..] == rest;
  }

  lemma SplitOne(text: string)
    requires MarkerFree(text)
    ensures Split(text) == [text]
  {
    assert Find(text, 0) == |text|;
  }

  /** Marker-free parts joined by markers are found again exactly. */
  lemma {:induction false} SplitJoin(parts: seq<string>)
    requires parts != [] && AllMarkerFree(parts)
    ensures Split(Join(parts)) == parts
    decreases |parts|
  {
    hide Split, MarkerFree;
    if |parts| == 1 {
      SplitOne(parts[0]);
    } else {
      SplitFirst(parts[0], Join(parts[1..]));
      SplitJoin(parts[1..]);
      assert parts == [parts[0]] + parts[1..];
    }
  }

  // ---------------------------------------------------------------------
  // The category files
  // ---------------------------------------------------------------------

  datatype Category = None | Some(name: string)

  datatype File = File(categories: seq<string>)

  const FILES: seq<File> := [
    File(["A_reference"]),
    File(["C_f0_range", "D_transition"]),
    File(["E_interval"]),
    File(["I_control"]),
    File(["J_long_soak"])]

  /** `",".join(names)`. */
  function Commas(names: seq<string>): string {
    if names == [] then ""
    else if |names| == 1 then names[0]
    else Commas(names[..|names| - 1]) + "," + names[|names| - 1]
  }

  /** The line that closes a file. */
  function EndLine(file: File): string {
    "B4D12_SPLIT_END category=" + Commas(file.categories) + "\n"
  }

  /** Whether a segment belongs to a file, by the category its first line names. */
  predicate Belongs(category: string -> Category, file: File, segment: string) {
    var c := category(segment);
    c.Some? && c.name in file.categories
  }

  function Selected(category: string -> Category, file: File, segments: seq<string>): seq<string> {
    if segments == [] then []
    else
      var n := |segments| - 1;
      Selected(category, file, segments[..n]) + if Belongs(category, file, segments[n]) then [segments[n]] else []
  }

  /** The preamble, then each selected segment behind its marker, then the end line. */
  function FileText(preamble: string, selected: seq<string>, endLine: string): string {
    Join([preamble] + selected) + endLine
  }

  /** `write_split_raw`: the contents of the five files. */
  method WriteSplitRaw(text: string, category: string -> Category) returns (contents: seq<string>)
    ensures |contents| == |FILES|
    ensures forall f :: 0 <= f < |FILES| ==>
              contents[f] == FileText(Split(text)[0], Selected(category, FILES[f], Split(text)[1..]), EndLine(FILES[f]))
  {
    var parts := Split(text);
    var preamble, segments := parts[0], parts[1..];
    contents := [];
    for f := 0 to |FILES|
      invariant |contents| == f
      invariant forall g :: 0 <= g < f ==>
                  contents[g] == FileText(preamble, Selected(category, FILES[g], segments), EndLine(FILES[g]))
    {
      var out := WriteFile(preamble, segments, category, FILES[f]);
      contents := contents + [out];
    }
  }

  method WriteFile(preamble: string, segments: seq<string>, category: string -> Category, file: File)
    returns (out: string)
    ensures out == FileText(preamble, Selected(category, file, segments), EndLine(file))
  {
    out := preamble;
    assert [preamble] + [] == [preamble];
    for i := 0 to |segments|
      invariant out == Join([preamble] + Selected(category, file, segments[..i]))
    {
      assert segments[..i + 1][..i] == segments[..i];
      ghost var before := Selected(category, file, segments[..i]);
      if Belongs(category, file, segments[i]) {
        JoinLast([preamble] + before, segments[i]);
        assert [preamble] + (before + [segments[i]]) == [preamble] + before + [segments[i]];
        out := out + (MARKER + segments[i]);
      } else {
        assert before + [] == before;
      }
    }
    assert segments[..|segments|] == segments;
    out := out + EndLine(file);
  }

  lemma {:induction false} JoinLast(parts: seq<string>, last: string)
    requires parts != []
    ensures Join(parts + [last]) == Join(parts) + (MARKER + last)
    decreases |parts|
  {
    if |parts| == 1 {
      assert (parts + [last])[1..] == [last];
      assert parts[0] + MARKER + last == parts[0] + (MARKER + last);
    } else {
      assert (parts + [last])[1..] == parts[1..] + [last];
      JoinLast(parts[1..], last);
      assert parts[0] + MARKER + (Join(parts[1..]) + (MARKER + last))
          == parts[0] + MARKER + Join(parts[1..]) + (MARKER + last);
    }
  }

  /** A segment reaches at most one file, and none when its category is not among the six. */
  lemma AtMostOneFile(category: string -> Category, segment: string, f: nat, g: nat)
    requires f < |FILES| && g < |FILES|
    requires Belongs(category, FILES[f], segment) && Belongs(category, FILES[g], segment)
    ensures f == g
  {
  }

  /** The categories that have a file; segments of any other are in none of them. */
  predicate Filed(c: Category) {
    c.Some? &&
    (c.name == "A_reference" || c.name == "C_f0_range" || c.name == "D_transition"
     || c.name == "E_interval" || c.name == "I_control" || c.name == "J_long_soak")
  }

  /** Which file takes which category. */
  lemma BelongsIff(category: string -> Category, segment: string, f: nat)
    requires f < |FILES|
    ensures |FILES| == 5
    ensures Belongs(category, FILES[f], segment) <==>
              var c := category(segment);
              c.Some? && match f
                case 0 => c.name == "A_reference"
                case 1 => c.name == "C_f0_range" || c.name == "D_transition"
                case 2 => c.name == "E_interval"
                case 3 => c.name == "I_control"
                case _ => c.name == "J_long_soak"
  {
  }

  lemma CommasOfOneOrTwo(x: string, y: string)
    ensures Commas([x]) == x && Commas([x, y]) == x + "," + y
  {
    assert [x, y][..1] == [x];
  }

  /** And how each ends. */
  lemma EndLineText(f: nat)
    requires f < |FILES|
    ensures var names :=
              match f
              case 0 => "A_reference"
              case 1 => "C_f0_range" + "," + "D_transition"
              case 2 => "E_interval"
              case 3 => "I_control"
              case _ => "J_long_soak";
            EndLine(FILES[f]) == "B4D12_SPLIT_END category=" + names + "\n"
  {
    hide Commas;
    var c := FILES[f].categories;
    if f == 1 {
      CommasOfOneOrTwo("C_f0_range", "D_transition");
    } else {
      CommasOfOneOrTwo(c[0], c[0]);
      assert c == [c[0]];
    }
  }

  lemma ReachesAFileIff(category: string -> Category, segment: string)
    ensures (exists f :: 0 <= f < |FILES| && Belongs(category, FILES[f], segment)) <==> Filed(category(segment))
  {
    var c := category(segment);
    if Filed(c) {
      var f :=
        if c.name == "A_reference" then 0
        else if c.name == "C_f0_range" || c.name == "D_transition" then 1
        else if c.name == "E_interval" then 2
        else if c.name == "I_control" then 3 else 4;
      assert Belongs(category, FILES[f], segment);
    }
  }

  /** The numbers in ix are, in increasing order, exactly those of the segments that belong to the file. */
  ghost predicate Chooses(category: string -> Category, file: File, segments: seq<string>, ix: seq<nat>) {
    && (forall j :: 0 <= j < |ix| ==> ix[j] < |segments|)
    && (forall j, k :: 0 <= j < k < |ix| ==> ix[j] < ix[k])
    && (forall i: nat :: i < |segments| ==> (i in ix <==> Belongs(category, file, segments[i])))
  }

  function ReadAt(segments: seq<string>, ix: seq<nat>): (s: seq<string>)
    requires forall j :: 0 <= j < |ix| ==> ix[j] < |segments|
    ensures |s| == |ix|
  {
    seq(|ix|, j requires 0 <= j < |ix| => segments[ix[j]])
  }

  /** The selection keeps every segment that belongs, no other, and their order. */
  lemma {:induction false} SelectedInOrder(category: string -> Category, file: File, segments: seq<string>)
    returns (ix: seq<nat>)
    ensures Chooses(category, file, segments, ix)
    ensures Selected(category, file, segments) == ReadAt(segments, ix)
    decreases |segments|
  {
    ix := [];
    if segments != [] {
      var n := |segments| - 1;
      hide Belongs;
      ix := SelectedInOrder(category, file, segments[..n]);
      assert ReadAt(segments, ix) == ReadAt(segments[..n], ix);
      if Belongs(category, file, segments[n]) {
        assert ReadAt(segments, ix + [n]) == ReadAt(segments, ix) + [segments[n]];
        ix := ix + [n];
      }
    }
  }

  /** A line that starts like a marker but is none, and has no other place where one could start. */
  ghost predicate IsEndLine(line: string) {
    && line != [] && line[0] == 'B' && MarkerFree(line)
  }

  predicate NoB(s: string) {
    forall j :: 0 <= j < |s| ==> s[j] != 'B'
  }

  lemma OneB(tail: string)
    requires NoB(tail) && |tail| >= 6 && tail[5] != 'C'
    ensures IsEndLine("B" + tail)
  {
    var line := "B" + tail;
    forall j: nat ensures !MarkerAt(line, j) {
      if j + |MARKER| <= |line| {
        assert line[j..j + |MARKER|][0] == line[j];
        assert line[j..j + |MARKER|][6] == line[j + 6];
      }
    }
  }

  lemma {:induction false} CommasNoB(names: seq<string>)
    requires forall i :: 0 <= i < |names| ==> NoB(names[i])
    ensures NoB(Commas(names))
    decreases |names|
  {
    if |names| > 1 {
      CommasNoB(names[..|names| - 1]);
    }
  }

  lemma CategoriesNoB(f: nat)
    requires f < |FILES|
    ensures forall i :: 0 <= i < |FILES[f].categories| ==> NoB(FILES[f].categories[i])
  {
    assert NoB("A_reference") && NoB("C_f0_range") && NoB("D_transition");
    assert NoB("E_interval") && NoB("I_control") && NoB("J_long_soak");
  }

  lemma PrefixNoB()
    ensures NoB("4D12_SPLIT_END category=") && NoB("\n")
  {
  }

  lemma EndLines(f: nat)
    requires f < |FILES|
    ensures IsEndLine(EndLine(FILES[f]))
  {
    hide IsEndLine, Commas;
    var names := FILES[f].categories;
    CategoriesNoB(f);
    CommasNoB(names);
    var tail := "4D12_SPLIT_END category=" + (Commas(names) + "\n");
    PrefixNoB();
    assert tail[5] == 'S';
    OneB(tail);
    assert EndLine(FILES[f]) == "B" + tail;
  }

  lemma EndLineKeepsFree(part: string, line: string)
    requires MarkerFree(part) && IsEndLine(line)
    ensures MarkerFree(part + line)
  {
    forall j: nat ensures !MarkerAt(part + line, j) {
      if j < |part| {
        NoMarkerAcross(part, line, j);
      } else if j + |MARKER| <= |part + line| {
        assert (part + line)[j..j + |MARKER|] == line[j - |part|..j - |part| + |MARKER|];
        assert !MarkerAt(line, j - |part|);
      }
    }
  }

  lemma {:induction false} JoinWithEnd(parts: seq<string>, line: string)
    requires parts != []
    ensures Join(parts) + line == Join(parts[..|parts| - 1] + [parts[|parts| - 1] + line])
    decreases |parts|
  {
    var n := |parts| - 1;
    if n > 0 {
      JoinWithEnd(parts[1..], line);
      assert (parts[..n] + [parts[n] + line])[1..] == parts[1..][..n - 1] + [parts[1..][n - 1] + line];
      assert parts[0] + MARKER + Join(parts[1..]) + line == parts[0] + MARKER + (Join(parts[1..]) + line);
    }
  }

  /** Each file splits again into the preamble and its own segments, the end line closing the last. */
  lemma FileSplitsAgain(preamble: string, selected: seq<string>, f: nat)
    requires f < |FILES| && AllMarkerFree([preamble] + selected)
    ensures var parts := [preamble] + selected;
            var n := |parts| - 1;
            Split(FileText(preamble, selected, EndLine(FILES[f]))) == parts[..n] + [parts[n] + EndLine(FILES[f])]
  {
    hide Split, Join, MarkerFree, IsEndLine;
    var parts, line := [preamble] + selected, EndLine(FILES[f]);
    var n := |parts| - 1;
    EndLines(f);
    EndLineKeepsFree(parts[n], line);
    JoinWithEnd(parts, line);
    SplitJoin(parts[..n] + [parts[n] + line]);
  }

  /** Every file written for a capture splits again into the preamble and, in capture order, exactly
      the capture's segments of its categories, the end line closing the last. */
  lemma WrittenFileReads(text: string, category: string -> Category, f: nat) returns (ix: seq<nat>)
    requires f < |FILES|
    ensures var segments := Split(text)[1..];
            && Chooses(category, FILES[f], segments, ix)
            && var parts := [Split(text)[0]] + ReadAt(segments, ix);
               var n := |parts| - 1;
               Split(FileText(Split(text)[0], Selected(category, FILES[f], segments), EndLine(FILES[f])))
               == parts[..n] + [parts[n] + EndLine(FILES[f])]
  {
    hide Split, Selected, FileText, EndLine, Belongs, MarkerFree;
    var preamble, segments := Split(text)[0], Split(text)[1..];
    ix := SelectedInOrder(category, FILES[f], segments);
    SplitMarkerFree(text);
    FileSplitsAgain(preamble, ReadAt(segments, ix), f);
  }
}
