/** The typedef-config branch: recovers the name of the main layer's configuration struct from
    its generated C++ text and aliases it as `hconfig`. */
module ConfigTypedef {
  import opened Wrappers
  import opened PyStr
  import opened HlsModel

  /** The lines kept by `filter(lambda x: x.startswith('struct '), ...)`, in order. */
  function StructLines(lines: seq<string>): seq<string>
  {
    if lines == [] then []
    else
      var last := lines[|lines| - 1];
      StructLines(lines[..|lines| - 1]) + (if StartsWith(last, "struct ") then [last] else [])
  }

  /** `line.split(':')[0].replace('struct', '').strip()`: the text before the first colon with
      every `struct` deleted and the surrounding whitespace removed. */
  function DeclaredName(line: string): string
  {
    Strip(Replace(Split(line, ':')[0], "struct", ""))
  }

  /** The name taken from the last of `lines` that starts with `struct `, or None when there
      is no such line (where the source's `structs[-1]` raises). */
  function LastStructName(lines: seq<string>): Option<string>
  {
    var structs := StructLines(lines);
    if structs == [] then None else Some(DeclaredName(structs[|structs| - 1]))
  }

  /** The struct name extracted from a layer's config text, split at newlines. */
  function StructName(configText: string): Option<string>
  {
    LastStructName(Split(configText, '\n'))
  }

  /** The text the typedef-config marker is replaced with, given the main layer's `config_cpp`. */
  function TypedefBlock(config: Option<string>): Result<string, Error>
  {
    match config
    case None => Success("")
    case Some(text) =>
      match StructName(text)
      case None => Failure(NoStructLine)
      case Some(n) => Success("typedef " + n + " hconfig;\n")
  }

  /** Some line starts with `struct `. */
  predicate HasStructLine(lines: seq<string>)
  {
    exists i :: 0 <= i < |lines| && StartsWith(lines[i], "struct ")
  }

  /** Line `k` is a `struct ` line and no later line is. */
  predicate IsLastStructLine(lines: seq<string>, k: int)
  {
    0 <= k < |lines| && StartsWith(lines[k], "struct ") &&
    forall j :: k < j < |lines| ==> !StartsWith(lines[j], "struct ")
  }

  /** The filter is empty exactly when no line starts with `struct `. */
  lemma {:induction false} StructLinesEmpty(lines: seq<string>)
    ensures StructLines(lines) == [] <==> !HasStructLine(lines)
  {
    if lines != [] {
      var init, last := lines[..|lines| - 1], lines[|lines| - 1];
      StructLinesEmpty(init);
      assert StructLines(lines) == StructLines(init) + (if StartsWith(last, "struct ") then [last] else []);
      assert forall i :: 0 <= i < |init| ==> init[i] == lines[i];
    }
  }

  /** A non-empty filter ends with the last line that starts with `struct `. */
  lemma {:induction false} StructLinesLast(lines: seq<string>)
    requires StructLines(lines) != []
    ensures exists k :: IsLastStructLine(lines, k) && StructLines(lines)[|StructLines(lines)| - 1] == lines[k]
  {
    var init, last := lines[..|lines| - 1], lines[|lines| - 1];
    var structs := StructLines(init);
    if StartsWith(last, "struct ") {
      assert IsLastStructLine(lines, |lines| - 1);
    } else {
      assert StructLines(lines) == structs;
      StructLinesLast(init);
      var k :| IsLastStructLine(init, k) && structs[|structs| - 1] == init[k];
      assert IsLastStructLine(lines, k);
    }
  }

  /** The extractor finds a name exactly when some line starts with `struct `, and then the
      name comes from the last such line. */
  lemma LastStructNameSpec(lines: seq<string>)
    ensures LastStructName(lines).None? <==> !HasStructLine(lines)
    ensures LastStructName(lines).Some? ==>
      exists k :: IsLastStructLine(lines, k) && LastStructName(lines).value == DeclaredName(lines[k])
  {
    StructLinesEmpty(lines);
    if StructLines(lines) != [] {
      StructLinesLast(lines);
    }
  }

  /** The typedef-config outcome: empty without config text; otherwise the alias of the last
      declared struct, or the error when no line starts with `struct ` (an empty config text
      included). */
  lemma TypedefOutcome(config: Option<string>)
    ensures config.None? ==> TypedefBlock(config) == Success("")
    ensures config.Some? ==>
      var lines := Split(config.value, '\n');
      (TypedefBlock(config) == Failure(NoStructLine) <==> !HasStructLine(lines)) &&
      (TypedefBlock(config).Success? ==>
        exists k :: IsLastStructLine(lines, k) &&
          TypedefBlock(config).value == "typedef " + DeclaredName(lines[k]) + " hconfig;\n")
  {
    if config.Some? {
      var lines := Split(config.value, '\n');
      LastStructNameSpec(lines);
      assert StructName(config.value) == LastStructName(lines);
      if LastStructName(lines).Some? {
        assert TypedefBlock(config) == Success("typedef " + LastStructName(lines).value + " hconfig;\n");
      }
    }
  }

  predicate IsIdentifierChar(c: char)
  {
    'a' <= c <= 'z' || 'A' <= c <= 'Z' || '0' <= c <= '9' || c == '_'
  }

  /** Every character may appear in a C++ identifier. */
  predicate IdentifierChars(s: string)
  {
    forall i :: 0 <= i < |s| ==> IsIdentifierChar(s[i])
  }

  /** A C++ identifier as the config generators write them. */
  predicate IsIdentifier(s: string)
  {
    |s| > 0 && IdentifierChars(s)
  }

  /** A space cannot be part of an occurrence of `struct`, so joining two texts without one
      at a space creates none. */
  lemma {:induction false} NoStructAcrossSpace(x: string, y: string)
    requires !Contains(x, "struct") && !Contains(y, "struct")
    ensures !Contains(x + " " + y, "struct")
  {
    var s := x + " " + y;
    if |x| >= 6 {
      assert s[..6] == x[..6];
    } else if |s| >= 6 {
      assert s[..6][|x|] == ' ';
    }
    if x == [] {
      assert s[1..] == y;
    } else {
      NoStructAcrossSpace(x[1..], y);
      assert s[1..] == x[1..] + " " + y;
    }
  }

  /** No two occurrences of `struct` can overlap. */
  lemma StructHasUniqueHead()
    ensures UniqueHead("struct")
  {
    assert "struct" == ['s', 't', 'r', 'u', 'c', 't'];
  }

  /** Joining identifier characters with identifier characters gives identifier characters. */
  lemma {:induction false} JoinWithIdentifierChars(parts: seq<string>, glue: string)
    requires IdentifierChars(glue)
    requires forall i :: 0 <= i < |parts| ==> IdentifierChars(parts[i])
    ensures IdentifierChars(JoinWith(parts, glue))
  {
    if |parts| > 1 {
      JoinWithIdentifierChars(parts[1..], glue);
      var rest := JoinWith(parts[1..], glue);
      assert JoinWith(parts, glue) == parts[0] + glue + rest;
      assert IdentifierChars(parts[0]);
    }
  }

  /** The three steps of the extractor, taken one at a time. */
  lemma DeclaredNameSteps(line: string, first: string, replaced: string, name: string)
    requires Split(line, ':')[0] == first
    requires Replace(first, "struct", "") == replaced
    requires Strip(replaced) == name
    ensures DeclaredName(line) == name
  {
  }

  /** Deleting `struct` from a text that starts with the keyword and holds no other
      occurrence leaves the rest of the text. */
  lemma ReplaceLeadingKeyword(t: string)
    requires !Contains(t, "struct")
    ensures Replace("struct" + t, "struct", "") == t
  {
    var s := "struct" + t;
    assert StartsWith(s, "struct");
    assert s[6..] == t;
    ReplaceAbsent(t, "struct", "");
  }

  /** The text before the first colon of a line without one is the whole line. */
  lemma FirstFieldWithoutColon(line: string)
    requires ':' !in line
    ensures Split(line, ':')[0] == line
  {
    SplitAfterPrefix(line, "", ':');
    assert line + "" == line;
  }

  /** The text before the first colon of a line is everything up to it. */
  lemma FirstFieldBeforeColon(head: string, rest: string)
    requires ':' !in head
    ensures Split(head + (":" + rest), ':')[0] == head
  {
    SplitAfterPrefix(head, ":" + rest, ':');
    assert Split(":" + rest, ':')[0] == "";
    assert head + "" == head;
  }

  /** Identifier characters hold no colon and no whitespace. */
  lemma IdentifierCharsPlain(name: string)
    requires IdentifierChars(name)
    ensures ':' !in name
    ensures forall i :: 0 <= i < |name| ==> !IsSpace(name[i])
  {
    assert forall i :: 0 <= i < |name| ==> name[i] != ':';
  }

  /** For a declaration as the generators write it, `struct NAME : BASE ...`, the extractor
      recovers exactly NAME, as long as NAME itself does not contain `struct`. */
  lemma DeclaredNameOfDeclaration(name: string, rest: string)
    requires IsIdentifier(name) && !Contains(name, "struct")
    ensures DeclaredName("struct " + name + " :" + rest) == name
  {
    assert StructFreeParts([name]);
    EveryStructInNameDeleted([name], rest);
  }

  /** The steps of the extractor on `struct NAME BODY` with neither holding `struct` and no
      colon anywhere. */
  lemma ColonlessSteps(name: string, body: string)
    requires IdentifierChars(name) && !Contains(name, "struct")
    requires ':' !in body && !Contains(body, "struct")
    ensures var tail := " " + (name + " " + body);
      Split("struct" + tail, ':')[0] == "struct" + tail &&
      Replace("struct" + tail, "struct", "") == tail
  {
    var tail := " " + (name + " " + body);
    IdentifierCharsPlain(name);
    assert ':' !in "struct" + tail;
    FirstFieldWithoutColon("struct" + tail);
    NoStructAcrossSpace(name, body);
    NoStructAcrossSpace("", name + " " + body);
    assert "" + " " + (name + " " + body) == tail;
    ReplaceLeadingKeyword(tail);
  }

  /** Stripping ` NAME BODY` leaves `NAME BODY` when BODY ends in a non-space. */
  lemma ColonlessStrip(name: string, body: string)
    requires IsIdentifier(name) && body != [] && !IsSpace(body[|body| - 1])
    ensures Strip(" " + (name + " " + body)) == name + " " + body
  {
    var core := name + " " + body;
    assert IsIdentifierChar(name[0]);
    assert core[0] == name[0] && core[|core| - 1] == body[|body| - 1];
    StripPadded(" ", core, "");
    assert " " + core + "" == " " + core;
  }

  /** `struct NAME BODY` is the keyword followed by ` NAME BODY`. */
  lemma KeywordLine(name: string, body: string)
    ensures "struct " + name + " " + body == "struct" + (" " + (name + " " + body))
  {
  }

  /** Only a colon ends the name: on a declaration without one, such as `struct NAME {`,
      everything after the keyword is kept, the brace included. */
  lemma ColonlessDeclarationKeepsBody(name: string, body: string)
    requires IsIdentifier(name) && !Contains(name, "struct")
    requires ':' !in body && !Contains(body, "struct") && body != [] && !IsSpace(body[|body| - 1])
    ensures DeclaredName("struct " + name + " " + body) == name + " " + body
  {
    var core := name + " " + body;
    var line := "struct" + (" " + core);
    ColonlessSteps(name, body);
    ColonlessStrip(name, body);
    DeclaredNameSteps(line, line, " " + core, core);
    KeywordLine(name, body);
  }

  /** The parts of a name padded with a space on either side, as they stand after the keyword. */
  function Padded(parts: seq<string>): (r: seq<string>)
    requires |parts| >= 1
    ensures |r| == |parts|
  {
    var front := parts[0 := " " + parts[0]];
    front[|front| - 1 := front[|front| - 1] + " "]
  }

  /** Padding keeps the parts free of `struct`, and pads the joined text. */
  lemma PaddedParts(parts: seq<string>, glue: string)
    requires |parts| >= 1
    requires forall i :: 0 <= i < |parts| ==> !Contains(parts[i], "struct")
    ensures forall i :: 0 <= i < |parts| ==> !Contains(Padded(parts)[i], "struct")
    ensures JoinWith(Padded(parts), glue) == " " + JoinWith(parts, glue) + " "
  {
    var front := parts[0 := " " + parts[0]];
    JoinWithPadFront(parts, glue, " ");
    JoinWithPadBack(front, glue, " ");
    forall i | 0 <= i < |parts| ensures !Contains(front[i], "struct") {
      if i == 0 {
        NoStructAcrossSpace("", parts[0]);
        assert "" + " " + parts[0] == front[0];
      }
    }
    forall i | 0 <= i < |parts| ensures !Contains(Padded(parts)[i], "struct") {
      if i == |parts| - 1 {
        NoStructAcrossSpace(front[i], "");
        assert front[i] + " " + "" == Padded(parts)[i];
      }
    }
  }

  /** The parts of a name hold identifier characters and no `struct`. */
  predicate StructFreeParts(parts: seq<string>)
  {
    |parts| >= 1 &&
    forall i :: 0 <= i < |parts| ==> IdentifierChars(parts[i]) && !Contains(parts[i], "struct")
  }

  /** The name as written, and as it comes out, holds identifier characters only. */
  lemma StructFreePartsChars(parts: seq<string>)
    requires StructFreeParts(parts)
    ensures IdentifierChars(JoinWith(parts, "struct")) && IdentifierChars(JoinWith(parts, ""))
  {
    assert IdentifierChars("struct");
    JoinWithIdentifierChars(parts, "struct");
    JoinWithIdentifierChars(parts, "");
  }

  /** The keyword, the separating spaces and every `struct` inside the name are deleted. */
  lemma ReplaceStructsInName(parts: seq<string>)
    requires StructFreeParts(parts)
    ensures Replace("struct" + (" " + JoinWith(parts, "struct") + " "), "struct", "") ==
      " " + JoinWith(parts, "") + " "
  {
    var padded := " " + JoinWith(parts, "struct") + " ";
    var head := "struct" + padded;
    assert StartsWith(head, "struct") && head[6..] == padded;
    PaddedParts(parts, "struct");
    PaddedParts(parts, "");
    StructHasUniqueHead();
    ReplaceJoinWith(Padded(parts), "struct", "");
  }

  /** `struct NAME :REST` is the keyword, the padded name, and the text from the colon on. */
  lemma DeclarationLine(name: string, rest: string)
    ensures "struct " + name + " :" + rest == "struct" + (" " + name + " ") + (":" + rest)
  {
  }

  /** Every `struct` is deleted, not only the keyword: a name written as parts free of
      `struct` with `struct` between them comes out as the parts run together. */
  lemma EveryStructInNameDeleted(parts: seq<string>, rest: string)
    requires StructFreeParts(parts)
    ensures DeclaredName("struct " + JoinWith(parts, "struct") + " :" + rest) == JoinWith(parts, "")
  {
    var written := JoinWith(parts, "struct");
    var name := JoinWith(parts, "");
    var head := "struct" + (" " + written + " ");
    DeclarationLine(written, rest);
    StructFreePartsChars(parts);
    IdentifierCharsPlain(written);
    IdentifierCharsPlain(name);
    assert ':' !in head;
    FirstFieldBeforeColon(head, rest);
    ReplaceStructsInName(parts);
    StripPadded(" ", name, " ");
    DeclaredNameSteps(head + (":" + rest), head, " " + name + " ", name);
  }
}
