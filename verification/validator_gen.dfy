/** The validator_gen tool: reading request names from validator.log,
    checking and trimming its directory flags, and deciding which files to
    generate. The log is read with bufio.Reader.ReadBytes('\n'); the text
    of the generated files (the templates) is not modelled. */
module ValidatorGen {
  import opened Base
  import opened Text

  // ---------------------------------------------------------------------
  // Reading the log

  /** One ReadBytes('\n') call: the characters read, and whether the call
      reported end of file instead of stopping after a newline. */
  datatype Read = Read(data: string, eof: bool)

  /** The characters of several reads, in order. */
  function ConcatData(rs: seq<Read>): string
    decreases |rs|
  {
    if |rs| == 0 then "" else rs[0].data + ConcatData(rs[1..])
  }

  /** The reads a file yields: one per newline-terminated line, each ending
      in its newline, then a last one that reaches end of file with the
      characters after the last newline (possibly none). */
  function Reads(content: string): (r: seq<Read>)
    ensures |r| > 0 && r[|r| - 1].eof && '\n' !in r[|r| - 1].data
    ensures forall i :: 0 <= i < |r| - 1 ==> !r[i].eof
    ensures ConcatData(r) == content
    decreases |content|
  {
    match IndexOf(content, '\n')
    case None => [Read(content, true)]
    case Some(i) =>
      var rest := Reads(content[i + 1..]);
      var head := content[..i + 1];
      var r := [Read(head, false)] + rest;
      assert r[1..] == rest;
      assert ConcatData(r) == head + content[i + 1..];
      assert content == head + content[i + 1..];
      assert forall j :: 1 <= j < |r| ==> r[j] == rest[j - 1];
      r
  }

  /** The reads of a file are its newline-separated pieces: every piece but
      the last followed by its newline, and then the last piece at end of
      file. */
  lemma {:induction false} ReadsArePieces(content: string)
    ensures |Reads(content)| == |Split(content, '\n')|
    ensures forall i :: 0 <= i < |Reads(content)| - 1 ==> Reads(content)[i].data == Split(content, '\n')[i] + "\n"
    ensures Reads(content)[|Reads(content)| - 1].data == Split(content, '\n')[|Split(content, '\n')| - 1]
    decreases |content|
  {
    if IndexOf(content, '\n').Some? {
      var i := IndexOf(content, '\n').value;
      var tail := content[i + 1..];
      ReadsArePieces(tail);
      ReadsAndPiecesStep(content, i);
      PiecesStep(Reads(content), Split(content, '\n'), Reads(tail), Split(tail, '\n'), content[..i]);
    }
  }

  /** One unfolding of both Reads and Split at the first newline. */
  lemma ReadsAndPiecesStep(content: string, i: nat)
    requires IndexOf(content, '\n') == Some(i)
    ensures Reads(content) == [Read(content[..i] + "\n", false)] + Reads(content[i + 1..])
    ensures Split(content, '\n') == [content[..i]] + Split(content[i + 1..], '\n')
  {
    ReadsStep(content, i);
  }

  lemma ReadsStep(content: string, i: nat)
    requires IndexOf(content, '\n') == Some(i)
    ensures Reads(content) == [Read(content[..i] + "\n", false)] + Reads(content[i + 1..])
  {
    var line := content[..i + 1];
    assert line == content[..i] + "\n" by {
      assert content[i] == '\n';
    }
    assert Reads(content) == [Read(line, false)] + Reads(content[i + 1..]);
  }

  /** Prepending one terminated line keeps reads and pieces in step. */
  lemma PiecesStep(rs: seq<Read>, pieces: seq<string>, rt: seq<Read>, pt: seq<string>, line: string)
    requires |rt| == |pt| > 0
    requires forall j :: 0 <= j < |rt| - 1 ==> rt[j].data == pt[j] + "\n"
    requires rt[|rt| - 1].data == pt[|pt| - 1]
    requires rs == [Read(line + "\n", false)] + rt && pieces == [line] + pt
    ensures |rs| == |pieces|
    ensures forall j :: 0 <= j < |rs| - 1 ==> rs[j].data == pieces[j] + "\n"
    ensures rs[|rs| - 1].data == pieces[|pieces| - 1]
  {
    forall j | 0 <= j < |rs| - 1
      ensures rs[j].data == pieces[j] + "\n"
    {
      if j > 0 {
        assert rs[j] == rt[j - 1] && pieces[j] == pt[j - 1];
      }
    }
  }

  /** What one line contributes: nothing when it is blank after trimming
      newlines or does not split on "=" into exactly two parts; otherwise
      the second part with surrounding white space removed. */
  function LineName(line: string): Option<string>
  {
    TrimmedLineName(TrimChar(line, '\n'))
  }

  /** LineName once the newlines are trimmed. */
  function TrimmedLineName(str: string): Option<string>
  {
    if str == "" then None else PartsName(Split(str, '='))
  }

  /** LineName once the line is split on "=". */
  function PartsName(parts: seq<string>): Option<string>
  {
    if |parts| == 2 then Some(TrimSpace(parts[1])) else None
  }

  /** A line names a validator exactly when, without its newlines, it is
      non-blank and holds exactly one '='; the name is the text after that
      '=' with white space trimmed, and may be empty. */
  lemma LineNameMeaning(line: string)
    ensures var str := TrimChar(line, '\n');
      LineName(line).Some? <==> (str != "" && multiset(str)['='] == 1)
    ensures var str := TrimChar(line, '\n');
      LineName(line).Some? ==> (IndexOf(str, '=').Some?
        && LineName(line).value == TrimSpace(str[IndexOf(str, '=').value + 1..]))
  {
    var str := TrimChar(line, '\n');
    assert LineName(line) == TrimmedLineName(str);
    TrimmedLineNameMeaning(str);
  }

  lemma TrimmedLineNameMeaning(str: string)
    ensures TrimmedLineName(str).Some? <==> (str != "" && multiset(str)['='] == 1)
    ensures TrimmedLineName(str).Some? ==> (IndexOf(str, '=').Some?
      && TrimmedLineName(str).value == TrimSpace(str[IndexOf(str, '=').value + 1..]))
  {
    if str != "" {
      SplitCount(str, '=');
      if multiset(str)['='] == 1 {
        SplitOnce(str, '=');
      }
    }
  }

  /** With exactly one separator the second piece is the text after it. */
  lemma SplitOnce(s: string, sep: char)
    requires multiset(s)[sep] == 1
    ensures IndexOf(s, sep).Some? && Split(s, sep) == [s[..IndexOf(s, sep).value], s[IndexOf(s, sep).value + 1..]]
  {
    assert sep in multiset(s);
    var i := IndexOf(s, sep).value;
    var rest := s[i + 1..];
    OnlyOccurrence(s, sep, i);
    SplitWithout(rest, sep);
    assert Split(s, sep) == [s[..i]] + Split(rest, sep);
  }

  /** The single occurrence of a character has none after it. */
  lemma OnlyOccurrence(s: string, c: char, i: nat)
    requires multiset(s)[c] == 1 && i < |s| && s[i] == c
    ensures forall j :: i < j < |s| ==> s[j] != c
  {
    var rest := s[i + 1..];
    assert s == s[..i] + [c] + rest;
    assert multiset(s) == multiset(s[..i]) + multiset([c]) + multiset(rest);
    forall j | i < j < |s|
      ensures s[j] != c
    {
      assert s[j] == rest[j - i - 1];
      assert rest[j - i - 1] in multiset(rest);
    }
  }

  /** A trailing newline does not change what a line contributes. */
  lemma LineNameNewline(piece: string)
    ensures LineName(piece + "\n") == LineName(piece)
  {
    var drop := (x: char) => x == '\n';
    assert (piece + "\n")[..|piece|] == piece;
    assert TrimRightWhere(piece + "\n", drop) == TrimRightWhere(piece, drop);
  }

  /** The reference reading: the names of the given lines, in order. */
  function NamesOfLines(lines: seq<string>): (names: seq<string>)
    ensures |names| <= |lines|
    decreases |lines|
  {
    if |lines| == 0 then []
    else
      var last := match LineName(lines[|lines| - 1]) case Some(n) => [n] case None => [];
      NamesOfLines(lines[..|lines| - 1]) + last
  }

  /** Taking one more line adds that line's name, if it has one. */
  lemma NamesOfLinesStep(lines: seq<string>, k: nat)
    requires k < |lines|
    ensures NamesOfLines(lines[..k + 1]) == NamesOfLines(lines[..k])
      + (if LineName(lines[k]).Some? then [LineName(lines[k]).value] else [])
  {
    assert lines[..k + 1][..k] == lines[..k];
  }

  /** Every piece but the last: the lines a newline terminates. */
  function TerminatedLines(content: string): (lines: seq<string>)
    ensures |lines| == multiset(content)['\n']
  {
    SplitCount(content, '\n');
    Split(content, '\n')[..|Split(content, '\n')| - 1]
  }

  /** getAllReqValidatorNames as written: a missing log gives nil; otherwise
      the reads are processed in order until the read that reaches end of
      file, which is dropped with whatever it holds. The result is the
      names of the newline-terminated lines only. */
  method GetAllReqValidatorNames(file: Option<string>) returns (names: Option<seq<string>>)
    ensures file.None? ==> names.None?
    ensures file.Some? ==> names == Some(NamesOfLines(TerminatedLines(file.value)))
  {
    if file.None? {
      return None;
    }
    var rs := Reads(file.value);
    ghost var lines := TerminatedLines(file.value);
    ReadsArePieces(file.value);
    var arr: seq<string> := [];
    var k := 0;
    while k < |rs|
      invariant 0 <= k <= |rs| - 1
      invariant arr == NamesOfLines(lines[..k])
      decreases |rs| - k
    {
      if rs[k].eof {
        break;
      }
      var name := LineName(rs[k].data);
      assert rs[k].data == lines[k] + "\n";
      LineNameNewline(lines[k]);
      NamesOfLinesStep(lines, k);
      if name.Some? {
        arr := arr + [name.value];
      }
      k := k + 1;
    }
    assert k == |rs| - 1;
    assert lines[..k] == lines;
    return Some(arr);
  }

  /** The reading the tool evidently intends: every line, the last one
      included when no newline ends it. */
  function IntendedNames(file: Option<string>): (names: Option<seq<string>>)
    ensures file.None? <==> names.None?
  {
    match file
    case None => None
    case Some(content) => Some(NamesOfLines(Split(content, '\n')))
  }

  /** The intended reading agrees with the written one when the log ends
      in a newline, and adds the last line's name otherwise. */
  lemma IntendedNamesExtends(content: string)
    ensures var pieces := Split(content, '\n');
      IntendedNames(Some(content)).value == NamesOfLines(TerminatedLines(content))
        + (match LineName(pieces[|pieces| - 1]) case Some(n) => [n] case None => [])
  {
    var pieces := Split(content, '\n');
    assert pieces[..|pieces| - 1] == TerminatedLines(content);
  }

  /** A log whose only line, `key=name` without a newline, names a
      validator yields no names as written; the intended reading finds it. */
  lemma UnterminatedLineDropped(key: string, name: string)
    requires forall i :: 0 <= i < |key| ==> key[i] != '\n' && key[i] != '='
    requires forall i :: 0 <= i < |name| ==> name[i] != '\n' && name[i] != '='
    requires |name| > 0 && !IsSpace(name[0]) && !IsSpace(name[|name| - 1])
    ensures TerminatedLines(key + ['='] + name) == []
    ensures NamesOfLines(TerminatedLines(key + ['='] + name)) == []
    ensures IntendedNames(Some(key + ['='] + name)) == Some([name])
  {
    var line := key + ['='] + name;
    SplitWithout(line, '\n');
    PairLineName(key, name);
    assert [line][..0] == [];
    assert NamesOfLines([line]) == [name];
  }

  /** A line `key=name` with one '=', no newline and a name without
      surrounding white space names `name`. */
  lemma PairLineName(key: string, name: string)
    requires forall i :: 0 <= i < |key| ==> key[i] != '\n' && key[i] != '='
    requires forall i :: 0 <= i < |name| ==> name[i] != '\n' && name[i] != '='
    requires |name| > 0 && !IsSpace(name[0]) && !IsSpace(name[|name| - 1])
    ensures LineName(key + ['='] + name) == Some(name)
  {
    var line := key + ['='] + name;
    assert line[0] != '\n' && line[|line| - 1] != '\n';
    LineNameUntrimmed(line);
    PairTrimmedLineName(key, name);
  }

  /** Without newlines at its ends a line is not trimmed. */
  lemma LineNameUntrimmed(line: string)
    requires |line| == 0 || (line[0] != '\n' && line[|line| - 1] != '\n')
    ensures LineName(line) == TrimmedLineName(line)
  {
    TrimCharKeeps(line, '\n');
  }

  /** The trimmed line `key=name` names `name`. */
  lemma PairTrimmedLineName(key: string, name: string)
    requires forall i :: 0 <= i < |name| ==> name[i] != '='
    requires '=' !in key
    requires |name| > 0 && !IsSpace(name[0]) && !IsSpace(name[|name| - 1])
    ensures TrimmedLineName(key + ['='] + name) == Some(name)
  {
    SplitAtFirst(key, name, '=');
    SplitWithout(name, '=');
    TrimSpaceKeeps(name);
  }

  /** A text without the separator splits into itself. */
  lemma SplitWithout(s: string, sep: char)
    requires forall i :: 0 <= i < |s| ==> s[i] != sep
    ensures Split(s, sep) == [s]
  {
  }

  // ---------------------------------------------------------------------
  // Flags and output

  /** Why the tool stops before reading anything. */
  datatype FlagError = ParamError

  /** The directories the tool works with once its flags are checked. */
  datatype Dirs = Dirs(pbDir: string, validatorLogDir: string)

  /** init: both flags must be non-empty; trailing '/' characters are
      stripped from the proto directory (which may leave it empty). */
  function CheckFlags(pbDir: string, validatorLogDir: string): (r: Result<Dirs, FlagError>)
    ensures r.Failure? <==> (pbDir == "" || validatorLogDir == "")
    ensures r.Success? ==> r.value.validatorLogDir == validatorLogDir
    ensures r.Success? ==>
      (&& HasPrefix(pbDir, r.value.pbDir)
       && (|r.value.pbDir| == 0 || r.value.pbDir[|r.value.pbDir| - 1] != '/')
       && forall i :: |r.value.pbDir| <= i < |pbDir| ==> pbDir[i] == '/')
  {
    if pbDir == "" || validatorLogDir == "" then Failure(ParamError)
    else Success(Dirs(TrimRightChar(pbDir, '/'), validatorLogDir))
  }

  /** The log file the tool reads. */
  function LogPath(d: Dirs): (p: string)
    ensures HasPrefix(p, d.validatorLogDir)
  {
    d.validatorLogDir + "/validator.log"
  }

  /** The two files main writes and the names it writes them for. */
  datatype Plan = Plan(validatorFile: string, requestFile: string, names: seq<string>)

  /** main after reading: nothing is generated for a nil or empty list;
      otherwise validator.go and validator_req.go go into the proto
      directory, one Validate method per name. */
  function PlanFor(d: Dirs, names: Option<seq<string>>): (p: Option<Plan>)
    ensures p.None? <==> (names.None? || |names.value| == 0)
    ensures p.Some? ==>
      (p.value.names == names.value && HasPrefix(p.value.validatorFile, d.pbDir) && HasPrefix(p.value.requestFile, d.pbDir))
  {
    if names.None? || |names.value| == 0 then None
    else Some(Plan(d.pbDir + "/validator.go", d.pbDir + "/validator_req.go", names.value))
  }

  /** The tool's main function as written: `readFile` stands for the file
      system. */
  method RunTool(pbDir: string, validatorLogDir: string, readFile: string -> Option<string>)
    returns (r: Result<Option<Plan>, FlagError>)
    ensures r.Failure? <==> (pbDir == "" || validatorLogDir == "")
    ensures r.Success? ==> var d := CheckFlags(pbDir, validatorLogDir).value;
      (r.value.None? <==> (readFile(LogPath(d)).None? || |NamesOfLines(TerminatedLines(readFile(LogPath(d)).value))| == 0))
    ensures r.Success? && r.value.Some? ==> var d := CheckFlags(pbDir, validatorLogDir).value;
      r.value.value.names == NamesOfLines(TerminatedLines(readFile(LogPath(d)).value))
  {
    var dirs := CheckFlags(pbDir, validatorLogDir);
    if dirs.Failure? {
      return Failure(dirs.error);
    }
    var names := GetAllReqValidatorNames(readFile(LogPath(dirs.value)));
    return Success(PlanFor(dirs.value, names));
  }
}
