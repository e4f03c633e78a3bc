/**
 * MultipartParser: sorts the parts of a multipart/form-data request into
 * text fields and uploaded files. A part whose Content-Disposition header
 * names a non-empty filename is a file; every other part is a text field.
 * Files are kept twice: the last one per field name, and all of them per
 * field name in arrival order.
 */
module Multipart {
  import opened Wrappers
  import opened JavaText
  import opened Upload

  /**
   * One part of the request, as the servlet container hands it over: its
   * field name, its Content-Disposition header (null when absent), its
   * Content-Type, its content as bytes, and the same content decoded as text.
   */
  datatype Part = Part(name: string, disposition: Option<string>, contentType: Option<string>,
                       content: ByteArray, text: string)

  // ---------------------------------------------------------------------
  // isMultipartRequest
  // ---------------------------------------------------------------------

  /**
   * isMultipartRequest: a content type is present and starts, lower-cased, with
   * "multipart/"; that is, it begins with "multipart/" in any mix of cases.
   */
  function IsMultipartRequest(contentType: Option<string>): (r: bool)
    ensures r <==> contentType.Some? && |contentType.value| >= 10 &&
                   EqualsIgnoreCase(contentType.value[..10], "multipart/")
  {
    if contentType.None? then false
    else
      var p := "multipart/";
      assert forall i :: 0 <= i < |p| ==> ToLowerChar(p[i]) == p[i];
      ToLowerIdentity(p);
      LowerPrefix(contentType.value, p);
      StartsWith(ToLower(contentType.value), p)
  }

  // ---------------------------------------------------------------------
  // getFileName
  // ---------------------------------------------------------------------

  /** What getFileName yields: null, a string, or the out-of-bounds failure on a lone `"`. */
  datatype FileNameResult = NoFileName | Named(fileName: string) | Malformed

  predicate IsFileNameToken(token: string) {
    StartsWith(Trim(token), "filename")
  }

  /** One pair of surrounding quotes removed; a lone quote is both the opening and the closing one. */
  function Unquote(v: string): (r: FileNameResult)
    ensures r != NoFileName
  {
    if StartsWith(v, "\"") && EndsWith(v, "\"") then
      if |v| < 2 then Malformed else Named(v[1..|v| - 1])
    else Named(v)
  }

  /** The value of a filename token: after its first '=', trimmed and unquoted. */
  function TokenFileName(token: string): (r: FileNameResult)
    ensures r != NoFileName
  {
    Unquote(Trim(token[IndexOf(token, '=') + 1..]))
  }

  /** The value of the first filename token, in header order. */
  function FileNameIn(tokens: seq<string>): FileNameResult {
    if |tokens| == 0 then NoFileName
    else if IsFileNameToken(tokens[0]) then TokenFileName(tokens[0])
    else FileNameIn(tokens[1..])
  }

  function FileNameOf(disposition: Option<string>): FileNameResult {
    if disposition.None? then NoFileName else FileNameIn(Split(disposition.value, ';'))
  }

  /** The value of one filename token, reassigned step by step as getFileName does. */
  method TokenValue(token: string) returns (r: FileNameResult)
    ensures r == TokenFileName(token)
  {
    var fileName := Trim(token[IndexOf(token, '=') + 1..]);
    if StartsWith(fileName, "\"") && EndsWith(fileName, "\"") {
      if |fileName| < 2 {
        return Malformed;
      }
      fileName := fileName[1..|fileName| - 1];
    }
    return Named(fileName);
  }

  /** The token loop of getFileName: returns at the first filename token. */
  method FirstFileName(tokens: seq<string>) returns (r: FileNameResult)
    ensures r == FileNameIn(tokens)
  {
    var i := 0;
    while i < |tokens|
      invariant 0 <= i <= |tokens|
      invariant FileNameIn(tokens[i..]) == FileNameIn(tokens)
    {
      var token := tokens[i];
      if StartsWith(Trim(token), "filename") {
        r := TokenValue(token);
        return;
      }
      assert tokens[i..][1..] == tokens[i + 1..];
      i := i + 1;
    }
    return NoFileName;
  }

  /** getFileName: null without a Content-Disposition header, else the first filename token's value. */
  method GetFileName(part: Part) returns (r: FileNameResult)
    ensures r == FileNameOf(part.disposition)
  {
    if part.disposition.None? {
      return NoFileName;
    }
    var tokens := Split(part.disposition.value, ';');
    r := FirstFileName(tokens);
  }

  lemma {:induction false} FileNameInAbsent(tokens: seq<string>)
    ensures FileNameIn(tokens) == NoFileName <==> forall i :: 0 <= i < |tokens| ==> !IsFileNameToken(tokens[i])
  {
    if |tokens| > 0 {
      FileNameInAbsent(tokens[1..]);
      assert forall i :: 1 <= i < |tokens| ==> tokens[i] == tokens[1..][i - 1];
    }
  }

  /** Null exactly when the header is absent or none of its tokens is a filename token. */
  lemma FileNameAbsent(disposition: Option<string>)
    ensures FileNameOf(disposition) == NoFileName <==>
              disposition.None? || forall t :: t in Split(disposition.value, ';') ==> !IsFileNameToken(t)
  {
    if disposition.Some? {
      FileNameInAbsent(Split(disposition.value, ';'));
    }
  }

  /** The first filename token decides, whatever follows it. */
  lemma {:induction false} FileNameFirstToken(tokens: seq<string>, i: nat)
    requires i < |tokens| && IsFileNameToken(tokens[i])
    requires forall j :: 0 <= j < i ==> !IsFileNameToken(tokens[j])
    ensures FileNameIn(tokens) == TokenFileName(tokens[i])
  {
    if i > 0 {
      FileNameFirstToken(tokens[1..], i - 1);
    }
  }

  lemma TrimSelf(x: string)
    requires x != [] && !IsTrimmed(x[0]) && !IsTrimmed(x[|x| - 1])
    ensures Trim(x) == x
  {
  }

  lemma TrimPadded(x: string)
    requires x != [] && !IsTrimmed(x[0]) && !IsTrimmed(x[|x| - 1])
    ensures Trim(" " + x) == x
  {
    assert (" " + x)[1..] == x;
  }

  /** The header a browser sends for a file input, for names without `;`. */
  function FileDisposition(field: string, fileName: string): string {
    "form-data" + ";" + (" name=\"" + field + "\"") + ";" + (" filename=\"" + fileName + "\"")
  }

  lemma DispositionTokens(field: string, fileName: string)
    requires ';' !in field && ';' !in fileName
    ensures Split(FileDisposition(field, fileName), ';') ==
              ["form-data", " name=\"" + field + "\"", " filename=\"" + fileName + "\""]
  {
    var t0, t1, t2 := "form-data", " name=\"" + field + "\"", " filename=\"" + fileName + "\"";
    var parts := [t0, t1, t2];
    assert Join(parts, ';') == FileDisposition(field, fileName) by {
      JoinThree(t0, t1, t2, ';');
    }
    assert forall i :: 0 <= i < |parts| ==> ';' !in parts[i] by {
      NotInAppend(" name=\"" + field, "\"", ';');
      NotInAppend(" name=\"", field, ';');
      NotInAppend(" filename=\"" + fileName, "\"", ';');
      NotInAppend(" filename=\"", fileName, ';');
    }
    SplitJoin(parts, ';');
  }

  /** A token is a filename token or not by its trimmed start. */
  lemma UnpaddedToken(x: string)
    requires x != [] && !IsTrimmed(x[0]) && !IsTrimmed(x[|x| - 1])
    ensures IsFileNameToken(x) <==> StartsWith(x, "filename")
  {
    TrimSelf(x);
  }

  /** The same, after the space that follows a `;` in a header. */
  lemma PaddedToken(x: string)
    requires x != [] && !IsTrimmed(x[0]) && !IsTrimmed(x[|x| - 1])
    ensures IsFileNameToken(" " + x) <==> StartsWith(x, "filename")
  {
    TrimPadded(x);
  }

  /** The value after the first '=', once trimmed, decides the token's filename. */
  lemma TokenValueIs(token: string, k: int, value: string)
    requires 0 <= k < |token| && IndexOf(token, '=') == k && token[k + 1..] == value
    requires value != [] && !IsTrimmed(value[0]) && !IsTrimmed(value[|value| - 1])
    ensures TokenFileName(token) == Unquote(value)
  {
    TrimSelf(value);
    assert Trim(token[IndexOf(token, '=') + 1..]) == value;
  }

  /** Without '=', the whole trimmed token is the value. */
  lemma TokenValueBare(token: string)
    requires '=' !in token
    requires token != [] && !IsTrimmed(token[0]) && !IsTrimmed(token[|token| - 1])
    ensures TokenFileName(token) == Unquote(token)
  {
    TrimSelf(token);
    assert token[IndexOf(token, '=') + 1..] == token;
  }

  /** A proof step of FileNameOfDisposition: the first token of a browser's header. */
  lemma FormDataIsNotFileName()
    ensures !IsFileNameToken("form-data")
  {
    UnpaddedToken("form-data");
    assert "form-data"[1] != "filename"[1];
  }

  /** A proof step of FileNameOfDisposition: the name token. */
  lemma NameIsNotFileName(field: string)
    ensures !IsFileNameToken(" name=\"" + field + "\"")
  {
    var u := "name=\"" + field + "\"";
    assert " name=\"" + field + "\"" == " " + u;
    PaddedToken(u);
  }

  /** A proof step of FileNameOfDisposition: the filename token. */
  lemma QuotedIsFileName(fileName: string)
    ensures IsFileNameToken(" filename=\"" + fileName + "\"")
  {
    var u := "filename=\"" + fileName + "\"";
    assert " filename=\"" + fileName + "\"" == " " + u;
    PaddedToken(u);
    assert u[..8] == "filename";
  }

  /** A proof step of QuotedFileName: where the value of the filename token starts. */
  lemma QuotedEquals(fileName: string)
    ensures var t := " filename=\"" + fileName + "\"";
            IndexOf(t, '=') == 9 && t[10..] == "\"" + fileName + "\""
  {
    var t := " filename=\"" + fileName + "\"";
    assert t[9] == '=' && '=' !in t[..9];
  }

  lemma UnquoteQuoted(v: string)
    ensures Unquote("\"" + v + "\"") == Named(v)
  {
    var q := "\"" + v + "\"";
    assert q[1..|q| - 1] == v;
    assert q[..1] == "\"" && q[|q| - 1..] == "\"";
  }

  lemma QuotedFileName(fileName: string)
    ensures TokenFileName(" filename=\"" + fileName + "\"") == Named(fileName)
  {
    QuotedEquals(fileName);
    TokenValueIs(" filename=\"" + fileName + "\"", 9, "\"" + fileName + "\"");
    UnquoteQuoted(fileName);
  }

  lemma ThirdTokenDecides(tokens: seq<string>)
    requires |tokens| == 3 && !IsFileNameToken(tokens[0]) && !IsFileNameToken(tokens[1])
    requires IsFileNameToken(tokens[2])
    ensures FileNameIn(tokens) == TokenFileName(tokens[2])
  {
    assert FileNameIn(tokens) == FileNameIn(tokens[1..]);
    assert tokens[1..][0] == tokens[1];
    assert FileNameIn(tokens[1..]) == FileNameIn(tokens[1..][1..]);
    assert tokens[1..][1..][0] == tokens[2];
  }

  /** getFileName recovers the filename from the header a browser sends. */
  lemma FileNameOfDisposition(field: string, fileName: string)
    requires ';' !in field && ';' !in fileName
    ensures FileNameOf(Some(FileDisposition(field, fileName))) == Named(fileName)
  {
    var tokens := Split(FileDisposition(field, fileName), ';');
    var quoted := " filename=\"" + fileName + "\"";
    assert tokens == ["form-data", " name=\"" + field + "\"", quoted] by {
      DispositionTokens(field, fileName);
    }
    assert !IsFileNameToken(tokens[0]) by {
      FormDataIsNotFileName();
    }
    assert !IsFileNameToken(tokens[1]) by {
      NameIsNotFileName(field);
    }
    assert IsFileNameToken(tokens[2]) && TokenFileName(tokens[2]) == Named(fileName) by {
      QuotedIsFileName(fileName);
      QuotedFileName(fileName);
    }
    ThirdTokenDecides(tokens);
  }

  /** A header of one token: its value if it is a filename token, else null. */
  lemma SingleToken(token: string)
    requires ';' !in token
    ensures FileNameOf(Some(token)) == if IsFileNameToken(token) then TokenFileName(token) else NoFileName
  {
    SplitOfFree(token, ';');
    assert FileNameIn([token]) == if IsFileNameToken(token) then TokenFileName(token) else FileNameIn([]) by {
      assert [token][0] == token && [token][1..] == [];
    }
  }

  /** A filename token without '=' names itself, as the bare token "filename" does. */
  lemma BareFileName(token: string)
    requires ';' !in token && '=' !in token && StartsWith(token, "filename")
    requires !IsTrimmed(token[|token| - 1]) && token[0] != '"'
    ensures FileNameOf(Some(token)) == Named(token)
  {
    SingleToken(token);
    UnpaddedToken(token);
    TokenValueBare(token);
  }

  lemma LoneQuoteValue()
    ensures Unquote("\"") == Malformed
  {
    var q := "\"";
    assert StartsWith(q, q) && EndsWith(q, q);
  }

  /** A proof step of LoneQuoteHeader: a filename token ending in a lone quote. */
  lemma LoneQuoteToken(name: string)
    requires '=' !in name && StartsWith(name, "filename")
    ensures IsFileNameToken(name + "=\"")
  {
    var t := name + "=\"";
    UnpaddedToken(t);
    assert t[..8] == name[..8];
  }

  /** A proof step of LoneQuoteMalformed: the value of that token is the lone quote. */
  lemma LoneQuoteEquals(name: string)
    requires '=' !in name
    ensures var t := name + "=\""; IndexOf(t, '=') == |name| && t[|name| + 1..] == "\""
  {
    var t := name + "=\"";
    assert t[|name|] == '=' && t[..|name|] == name;
  }

  /** A filename token whose value is a lone quote is malformed: Java's substring(1, 0) throws. */
  lemma LoneQuoteMalformed(name: string)
    requires '=' !in name
    ensures TokenFileName(name + "=\"") == Malformed
  {
    LoneQuoteEquals(name);
    TokenValueIs(name + "=\"", |name|, "\"");
    LoneQuoteValue();
  }

  /** A header whose filename value is a lone `"` makes getFileName fail. */
  lemma LoneQuoteHeader(name: string)
    requires ';' !in name && '=' !in name && StartsWith(name, "filename")
    ensures FileNameOf(Some(name + "=\"")) == Malformed
  {
    var t := name + "=\"";
    assert ';' !in t by {
      NotInAppend(name, "=\"", ';');
    }
    assert IsFileNameToken(t) by {
      LoneQuoteToken(name);
    }
    SingleToken(t);
    LoneQuoteMalformed(name);
  }

  // ---------------------------------------------------------------------
  // parse, specified as a fold over the steps the parts call for
  // ---------------------------------------------------------------------

  /** The value view of one FileUpload object. */
  datatype FileRecord = FileRecord(fileName: Option<string>, contentType: Option<string>,
                                   bytes: Option<ByteArray>, size: Int64)

  /** The record `new FileUpload(fileName, part.getContentType(), bytes)` holds. */
  function Uploaded(p: Part, fileName: string): (r: FileRecord)
    ensures r.fileName == Some(fileName) && r.contentType == p.contentType
    ensures r.bytes == Some(p.content) && r.size as int == |p.content|
  {
    FileRecord(Some(fileName), p.contentType, Some(p.content), |p.content| as Int64)
  }

  /** What parse does with one part: store a text field, store a file, or fail. */
  datatype Step = SetField(name: string, text: string) | AddFile(name: string, file: FileRecord) | Fail

  /** A null or empty filename makes a text field; a lone `"` makes the part fail. */
  function StepFor(p: Part, fileName: FileNameResult): (s: Step)
    ensures s.SetField? ==> s.name == p.name && s.text == p.text
    ensures s.AddFile? ==> s.name == p.name && s.file.fileName.Some? && s.file.fileName.value != ""
    ensures s.Fail? <==> fileName == Malformed
    ensures fileName == NoFileName || fileName == Named("") ==> s == SetField(p.name, p.text)
    ensures fileName.Named? && fileName.fileName != "" ==> s == AddFile(p.name, Uploaded(p, fileName.fileName))
  {
    match fileName
    case NoFileName => SetField(p.name, p.text)
    case Named(f) => if f == "" then SetField(p.name, p.text) else AddFile(p.name, Uploaded(p, f))
    case Malformed => Fail
  }

  function StepOf(p: Part): Step {
    StepFor(p, FileNameOf(p.disposition))
  }

  function Steps(parts: seq<Part>): (r: seq<Step>)
    ensures |r| == |parts|
  {
    if |parts| == 0 then [] else Steps(parts[..|parts| - 1]) + [StepOf(parts[|parts| - 1])]
  }

  lemma {:induction false} StepsAt(parts: seq<Part>, i: nat)
    requires i < |parts|
    ensures Steps(parts)[i] == StepOf(parts[i])
  {
    if i < |parts| - 1 {
      StepsAt(parts[..|parts| - 1], i);
    }
  }

  /** Number of steps before the first failing one. */
  function CountBeforeFail(steps: seq<Step>): (n: nat)
    ensures n <= |steps|
  {
    if |steps| == 0 || steps[0].Fail? then 0 else 1 + CountBeforeFail(steps[1..])
  }

  /** No step before the count fails, and the step at the count, if any, does. */
  lemma {:induction false} CountBeforeFailSpec(steps: seq<Step>)
    ensures forall j :: 0 <= j < CountBeforeFail(steps) ==> !steps[j].Fail?
    ensures CountBeforeFail(steps) < |steps| ==> steps[CountBeforeFail(steps)].Fail?
  {
    if |steps| > 0 && !steps[0].Fail? {
      CountBeforeFailSpec(steps[1..]);
      assert forall j :: 1 <= j < |steps| ==> steps[j] == steps[1..][j - 1];
    }
  }

  /** One step of parse's loop: a failing step at i ends the count there, any other step lets it go on. */
  lemma CountBeforeFailAt(steps: seq<Step>, i: nat)
    requires i <= CountBeforeFail(steps) && i < |steps|
    ensures steps[i].Fail? ==> CountBeforeFail(steps) == i
    ensures !steps[i].Fail? ==> i < CountBeforeFail(steps)
  {
    CountBeforeFailSpec(steps);
  }

  /** The steps a parse call applies: none unless the request is multipart, and none from the first failure on. */
  function Applied(contentType: Option<string>, parts: seq<Part>): (r: seq<Step>)
    ensures !IsMultipartRequest(contentType) ==> r == []
  {
    if IsMultipartRequest(contentType) then
      var steps := Steps(parts);
      steps[..CountBeforeFail(steps)]
    else []
  }

  function FieldsAfter(fields: map<string, string>, steps: seq<Step>): map<string, string>
    decreases |steps|
  {
    if |steps| == 0 then fields
    else
      var before := FieldsAfter(fields, steps[..|steps| - 1]);
      match steps[|steps| - 1]
      case SetField(n, t) => before[n := t]
      case _ => before
  }

  function FilesOr(files: map<string, seq<FileRecord>>, name: string): seq<FileRecord> {
    if name in files then files[name] else []
  }

  function FilesAfter(files: map<string, seq<FileRecord>>, steps: seq<Step>): map<string, seq<FileRecord>>
    decreases |steps|
  {
    if |steps| == 0 then files
    else
      var before := FilesAfter(files, steps[..|steps| - 1]);
      match steps[|steps| - 1]
      case AddFile(n, f) => before[n := FilesOr(before, n) + [f]]
      case _ => before
  }

  function SinglesAfter(singles: map<string, FileRecord>, steps: seq<Step>): map<string, FileRecord>
    decreases |steps|
  {
    if |steps| == 0 then singles
    else
      var before := SinglesAfter(singles, steps[..|steps| - 1]);
      match steps[|steps| - 1]
      case AddFile(n, f) => before[n := f]
      case _ => before
  }

  /** Reference definitions: the text values and the files sent under a name, in arrival order. */
  function TextsNamed(steps: seq<Step>, name: string): seq<string> {
    if |steps| == 0 then []
    else (if steps[0].SetField? && steps[0].name == name then [steps[0].text] else [])
         + TextsNamed(steps[1..], name)
  }

  function UploadsNamed(steps: seq<Step>, name: string): seq<FileRecord> {
    if |steps| == 0 then []
    else (if steps[0].AddFile? && steps[0].name == name then [steps[0].file] else [])
         + UploadsNamed(steps[1..], name)
  }

  lemma {:induction false} TextsNamedSnoc(steps: seq<Step>, s: Step, name: string)
    ensures TextsNamed(steps + [s], name) ==
              TextsNamed(steps, name) + (if s.SetField? && s.name == name then [s.text] else [])
  {
    if |steps| == 0 {
      assert steps + [s] == [s];
    } else {
      assert (steps + [s])[1..] == steps[1..] + [s];
      TextsNamedSnoc(steps[1..], s, name);
    }
  }

  lemma {:induction false} UploadsNamedSnoc(steps: seq<Step>, s: Step, name: string)
    ensures UploadsNamed(steps + [s], name) ==
              UploadsNamed(steps, name) + (if s.AddFile? && s.name == name then [s.file] else [])
  {
    if |steps| == 0 {
      assert steps + [s] == [s];
    } else {
      assert (steps + [s])[1..] == steps[1..] + [s];
      UploadsNamedSnoc(steps[1..], s, name);
    }
  }

  /** formFields[n] ends as the last text value sent under n; with none, it keeps its old entry. */
  lemma {:induction false} LastFieldWins(fields: map<string, string>, steps: seq<Step>, name: string)
    ensures var texts := TextsNamed(steps, name);
            var after := FieldsAfter(fields, steps);
            (|texts| > 0 ==> name in after && after[name] == texts[|texts| - 1]) &&
            (|texts| == 0 ==> (name in after <==> name in fields) && (name in fields ==> after[name] == fields[name]))
  {
    if |steps| > 0 {
      var init := steps[..|steps| - 1];
      assert steps == init + [steps[|steps| - 1]];
      LastFieldWins(fields, init, name);
      TextsNamedSnoc(init, steps[|steps| - 1], name);
    }
  }

  /** multiFiles[n] ends as its old list followed by every file sent under n, in arrival order. */
  lemma {:induction false} FilesInArrivalOrder(files: map<string, seq<FileRecord>>, steps: seq<Step>, name: string)
    ensures FilesOr(FilesAfter(files, steps), name) == FilesOr(files, name) + UploadsNamed(steps, name)
    ensures name in FilesAfter(files, steps) <==> name in files || |UploadsNamed(steps, name)| > 0
  {
    if |steps| > 0 {
      var init := steps[..|steps| - 1];
      assert steps == init + [steps[|steps| - 1]];
      FilesInArrivalOrder(files, init, name);
      UploadsNamedSnoc(init, steps[|steps| - 1], name);
    }
  }

  /** singleFiles[n] ends as the last file sent under n; with none, it keeps its old entry. */
  lemma {:induction false} SingleIsLastUpload(singles: map<string, FileRecord>, steps: seq<Step>, name: string)
    ensures var ups := UploadsNamed(steps, name);
            var after := SinglesAfter(singles, steps);
            (|ups| > 0 ==> name in after && after[name] == ups[|ups| - 1]) &&
            (|ups| == 0 ==> (name in after <==> name in singles) && (name in singles ==> after[name] == singles[name]))
  {
    if |steps| > 0 {
      var init := steps[..|steps| - 1];
      assert steps == init + [steps[|steps| - 1]];
      SingleIsLastUpload(singles, init, name);
      UploadsNamedSnoc(init, steps[|steps| - 1], name);
    }
  }

  /** The single-file and multi-file views agree: the single file is the last of a non-empty list. */
  predicate Agree(singles: map<string, FileRecord>, files: map<string, seq<FileRecord>>) {
    singles.Keys == files.Keys &&
    forall n :: n in files ==> |files[n]| > 0 && singles[n] == files[n][|files[n]| - 1]
  }

  lemma {:induction false} AgreePreserved(singles: map<string, FileRecord>, files: map<string, seq<FileRecord>>, steps: seq<Step>)
    requires Agree(singles, files)
    ensures Agree(SinglesAfter(singles, steps), FilesAfter(files, steps))
  {
    if |steps| > 0 {
      AgreePreserved(singles, files, steps[..|steps| - 1]);
    }
  }

  lemma TakeOneMore<T>(s: seq<T>, i: nat)
    requires i < |s|
    ensures s[..i + 1] == s[..i] + [s[i]]
  {
  }

  /** Each fold takes one more step by applying that step to the state so far. */
  lemma AfterSnoc(fields: map<string, string>, files: map<string, seq<FileRecord>>,
                  singles: map<string, FileRecord>, steps: seq<Step>, s: Step)
    ensures FieldsAfter(fields, steps + [s]) == FieldsAfter(FieldsAfter(fields, steps), [s])
    ensures FilesAfter(files, steps + [s]) == FilesAfter(FilesAfter(files, steps), [s])
    ensures SinglesAfter(singles, steps + [s]) == SinglesAfter(SinglesAfter(singles, steps), [s])
  {
    assert (steps + [s])[..|steps|] == steps;
    assert [s][..0] == [];
  }

  /** A text field leaves both file maps alone; a file leaves the text fields alone. */
  lemma TextAndFilesSeparate(fields: map<string, string>, files: map<string, seq<FileRecord>>,
                             singles: map<string, FileRecord>, steps: seq<Step>, s: Step)
    ensures s.SetField? ==>
              FilesAfter(files, steps + [s]) == FilesAfter(files, steps) &&
              SinglesAfter(singles, steps + [s]) == SinglesAfter(singles, steps)
    ensures s.AddFile? ==> FieldsAfter(fields, steps + [s]) == FieldsAfter(fields, steps)
  {
    assert (steps + [s])[..|steps|] == steps;
  }

  /** A part sent with a browser's file header, under a non-empty filename, is stored as a file. */
  lemma FilePartIsStored(p: Part, field: string, fileName: string)
    requires ';' !in field && ';' !in fileName && fileName != ""
    requires p.disposition == Some(FileDisposition(field, fileName))
    ensures StepOf(p) == AddFile(p.name, Uploaded(p, fileName))
  {
    FileNameOfDisposition(field, fileName);
  }

  // ---------------------------------------------------------------------
  // the parser object
  // ---------------------------------------------------------------------

  function RecordOf(f: FileUpload): FileRecord
    reads f
  {
    FileRecord(f.fileName, f.contentType, f.bytes, f.size)
  }

  function RecordsOf(s: seq<FileUpload>): seq<FileRecord>
    reads set f | f in s
  {
    if |s| == 0 then [] else RecordsOf(s[..|s| - 1]) + [RecordOf(s[|s| - 1])]
  }

  function FileSet(m: map<string, seq<FileUpload>>): set<FileUpload> {
    set n, f | n in m && f in m[n] :: f
  }

  /** The contents of the multi-file map, read through the objects it holds. */
  function FilesView(m: map<string, seq<FileUpload>>): map<string, seq<FileRecord>>
    reads FileSet(m)
  {
    map n | n in m :: RecordsOf(m[n])
  }

  function SinglesView(m: map<string, FileUpload>): map<string, FileRecord>
    reads m.Values
  {
    map n | n in m :: RecordOf(m[n])
  }

  lemma FilesViewUpdate(m: map<string, seq<FileUpload>>, name: string, s: seq<FileUpload>, f: FileUpload)
    ensures FilesView(m[name := s + [f]]) == FilesView(m)[name := RecordsOf(s) + [RecordOf(f)]]
  {
    assert (s + [f])[..|s|] == s;
  }

  twostate lemma FilesViewFramed(m: map<string, seq<FileUpload>>)
    requires unchanged(FileSet(m))
    ensures FilesView(m) == old(FilesView(m))
  {
  }

  twostate lemma SinglesViewFramed(m: map<string, FileUpload>)
    requires unchanged(m.Values)
    ensures SinglesView(m) == old(SinglesView(m))
  {
  }

  lemma SinglesViewUpdate(m: map<string, FileUpload>, name: string, f: FileUpload)
    ensures SinglesView(m[name := f]) == SinglesView(m)[name := RecordOf(f)]
  {
  }

  predicate Linked(singles: map<string, FileUpload>, multi: map<string, seq<FileUpload>>) {
    singles.Keys == multi.Keys &&
    forall n :: n in multi ==> |multi[n]| > 0 && singles[n] == multi[n][|multi[n]| - 1]
  }

  lemma ValidPut(singles: map<string, FileUpload>, multi: map<string, seq<FileUpload>>, name: string,
                 list: seq<FileUpload>, f: FileUpload)
    requires list == if name in multi then multi[name] else []
    ensures Linked(singles, multi) ==> Linked(singles[name := f], multi[name := list + [f]])
  {
  }

  class MultipartParser {
    var formFields: map<string, string>
    var singleFiles: map<string, FileUpload>
    var multiFiles: map<string, seq<FileUpload>>

    constructor ()
      ensures formFields == map[] && singleFiles == map[] && multiFiles == map[]
      ensures Valid()
    {
      formFields, singleFiles, multiFiles := map[], map[], map[];
    }

    /** Every single file is the last element of the non-empty list under the same name. */
    predicate Valid()
      reads this
    {
      Linked(singleFiles, multiFiles)
    }

    /**
     * parse: does nothing unless the request is multipart; otherwise applies the
     * parts in order and stops with `ok == false` at the first part whose filename
     * is a lone `"`, keeping the effects of the parts before it.
     */
    method Parse(contentType: Option<string>, parts: seq<Part>) returns (ok: bool)
      modifies this
      ensures formFields == FieldsAfter(old(formFields), Applied(contentType, parts))
      ensures FilesView(multiFiles) == FilesAfter(old(FilesView(multiFiles)), Applied(contentType, parts))
      ensures SinglesView(singleFiles) == SinglesAfter(old(SinglesView(singleFiles)), Applied(contentType, parts))
      ensures old(Valid()) ==> Valid()
      ensures ok <==> |Applied(contentType, parts)| == |parts| || !IsMultipartRequest(contentType)
      ensures !IsMultipartRequest(contentType) ==>
                formFields == old(formFields) && singleFiles == old(singleFiles) && multiFiles == old(multiFiles)
    {
      if !IsMultipartRequest(contentType) {
        return true;
      }
      ghost var steps := Steps(parts);
      ghost var fields0, files0, singles0, valid0 := formFields, FilesView(multiFiles), SinglesView(singleFiles), Valid();
      var i := 0;
      while i < |parts|
        invariant 0 <= i <= CountBeforeFail(steps)
        invariant formFields == FieldsAfter(fields0, steps[..i])
        invariant FilesView(multiFiles) == FilesAfter(files0, steps[..i])
        invariant SinglesView(singleFiles) == SinglesAfter(singles0, steps[..i])
        invariant valid0 ==> Valid()
      {
        StepsAt(parts, i);
        CountBeforeFailAt(steps, i);
        TakeOneMore(steps, i);
        AfterSnoc(fields0, files0, singles0, steps[..i], steps[i]);
        var stored := ParsePart(parts[i]);
        if !stored {
          assert Applied(contentType, parts) == steps[..i];
          return false;
        }
        i := i + 1;
      }
      assert steps[..i] == steps;
      assert Applied(contentType, parts) == steps;
      return true;
    }

    /** One pass of parse's loop: the part's filename decides how it is stored, or that parse fails. */
    method ParsePart(part: Part) returns (stored: bool)
      modifies this
      ensures stored <==> StepOf(part) != Fail
      ensures !stored ==>
                && formFields == old(formFields)
                && FilesView(multiFiles) == old(FilesView(multiFiles))
                && SinglesView(singleFiles) == old(SinglesView(singleFiles))
      ensures stored ==> formFields == FieldsAfter(old(formFields), [StepOf(part)])
      ensures stored ==> FilesView(multiFiles) == FilesAfter(old(FilesView(multiFiles)), [StepOf(part)])
      ensures stored ==> SinglesView(singleFiles) == SinglesAfter(old(SinglesView(singleFiles)), [StepOf(part)])
      ensures old(Valid()) ==> Valid()
    {
      label Before:
      var fileName := GetFileName(part);
      assert StepOf(part) == StepFor(part, fileName);
      FilesViewFramed@Before(multiFiles);
      stored := StorePart(part, fileName);
      if !stored {
        FilesViewFramed@Before(multiFiles);
        SinglesViewFramed@Before(singleFiles);
      }
    }

    /** The body of parse's loop once the filename is known: a text field, a file, or the failure. */
    method StorePart(part: Part, fileName: FileNameResult) returns (stored: bool)
      modifies this
      ensures stored <==> fileName != Malformed
      ensures !stored ==> formFields == old(formFields) && singleFiles == old(singleFiles) && multiFiles == old(multiFiles)
      ensures stored ==> formFields == FieldsAfter(old(formFields), [StepFor(part, fileName)])
      ensures stored ==> FilesView(multiFiles) == FilesAfter(old(FilesView(multiFiles)), [StepFor(part, fileName)])
      ensures stored ==> SinglesView(singleFiles) == SinglesAfter(old(SinglesView(singleFiles)), [StepFor(part, fileName)])
      ensures old(Valid()) ==> Valid()
    {
      if fileName == Malformed {
        return false;
      }
      if fileName == NoFileName || fileName.fileName == "" {
        formFields := formFields[part.name := part.text];
        FilesViewFramed(multiFiles);
        SinglesViewFramed(singleFiles);
      } else {
        StoreUpload(part, fileName.fileName);
      }
      return true;
    }

    /** The file branch of parse: a new FileUpload, put under the name in both file maps. */
    method StoreUpload(part: Part, fileName: string)
      modifies this`singleFiles, this`multiFiles
      ensures FilesView(multiFiles) ==
                old(FilesView(multiFiles))[part.name := FilesOr(old(FilesView(multiFiles)), part.name) + [Uploaded(part, fileName)]]
      ensures SinglesView(singleFiles) == old(SinglesView(singleFiles))[part.name := Uploaded(part, fileName)]
      ensures old(Valid()) ==> Valid()
    {
      ghost var multi0, singles0 := multiFiles, singleFiles;
      ghost var filesView0, singlesView0 := FilesView(multiFiles), SinglesView(singleFiles);
      var upload := new FileUpload(Some(fileName), part.contentType, Some(part.content));
      var list := if part.name in multiFiles then multiFiles[part.name] else [];
      ValidPut(singleFiles, multiFiles, part.name, list, upload);
      singleFiles := singleFiles[part.name := upload];
      multiFiles := multiFiles[part.name := list + [upload]];
      assert RecordOf(upload) == Uploaded(part, fileName);
      FilesViewFramed(multi0);
      assert RecordsOf(list) == FilesOr(filesView0, part.name);
      FilesViewUpdate(multi0, part.name, list, upload);
      SinglesViewFramed(singles0);
      SinglesViewUpdate(singles0, part.name, upload);
    }

    function GetField(name: string): (r: Option<string>)
      reads this
      ensures r.Some? <==> name in formFields
      ensures r.Some? ==> r.value == formFields[name]
    {
      if name in formFields then Some(formFields[name]) else None
    }

    /** getFile: while Valid, the last of the files under the name. */
    function GetFile(name: string): (r: Option<FileUpload>)
      reads this
      ensures Valid() ==> (r.Some? <==> |GetFiles(name)| > 0)
      ensures Valid() && r.Some? ==> r.value == GetFiles(name)[|GetFiles(name)| - 1]
    {
      if name in singleFiles then Some(singleFiles[name]) else None
    }

    /** getFiles: every file under the name, or the empty list for an unknown name. */
    function GetFiles(name: string): (r: seq<FileUpload>)
      reads this
      ensures name !in multiFiles ==> r == []
      ensures name in multiFiles ==> r == multiFiles[name]
    {
      if name in multiFiles then multiFiles[name] else []
    }

    /** hasFile: a file exists under the name and is not empty. */
    function HasFile(name: string): (r: bool)
      reads this, singleFiles.Values
      ensures r <==> GetFile(name).Some? && !GetFile(name).value.IsEmpty()
      ensures Valid() ==> (r <==> |GetFiles(name)| > 0 && !GetFiles(name)[|GetFiles(name)| - 1].IsEmpty())
    {
      name in singleFiles && !singleFiles[name].IsEmpty()
    }
  }
}
