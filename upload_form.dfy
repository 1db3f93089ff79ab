/** The bulk-upload dialog: the file, organisation and application the
    admin picks, the checks made before the request, the state the reply
    leaves behind, and the CSV template the dialog offers for download. */
module UploadForm {
  import opened Text
  import opened Wrappers
  import opened Catalog
  import opened CsvParse
  import BulkImport

  /** The chosen file as the dialog sees it. */
  datatype FileInfo = FileInfo(name: string, mimeType: string)

  /** `uploadStatus`; `Failed` is the source's 'error'. */
  datatype Status = Idle | Processing | Succeeded | Failed

  /** The multipart form the dialog posts: the file, the organisation and,
      only when one is chosen, the application. */
  datatype Request = Request(file: FileInfo, organizationId: string, applicationId: Option<string>)

  /** What comes back: a non-ok status with the body's `error` ('' when it
      has none), an ok status with the tally, or a throw (network failure
      or a body that is not JSON). */
  datatype Reply = Refused(error: string) | Accepted(results: BulkImport.Tally) | Threw

  const CsvRequired := "Please select a CSV file"
  const OrganizationRequired := "Please select an organization"
  const UploadFailed := "Failed to upload parts"
  const UploadRetry := "Failed to upload parts. Please try again."

  /** The value the application select stores for "No specific application". */
  const NoApplication := "__none__"

  /** The file input takes a file whose type is 'text/csv' or whose name
      ends in '.csv'. */
  predicate AcceptsFile(f: FileInfo) {
    f.mimeType == "text/csv" || EndsWith(f.name, ".csv")
  }

  /** The `application_id` form field: sent only for a chosen application. */
  function ApplicationField(project: string): (r: Option<string>)
    ensures r.Some? <==> project != "" && project != NoApplication
    ensures r.Some? ==> r.value == project
  {
    if project != "" && project != NoApplication then Some(project) else None
  }

  /** The message the submit handler stops with, if any: the file is
      checked before the organisation. */
  function SubmitCheck(file: Option<FileInfo>, organization: string): (r: Option<string>)
    ensures r.None? <==> file.Some? && organization != ""
    ensures file.None? ==> r == Some(CsvRequired)
    ensures file.Some? && organization == "" ==> r == Some(OrganizationRequired)
  {
    if file.None? then Some(CsvRequired)
    else if organization == "" then Some(OrganizationRequired)
    else None
  }

  /** `data.error || 'Failed to upload parts'`. */
  function RefusalMessage(error: string): (r: string)
    ensures r != ""
    ensures error != "" ==> r == error
  {
    if error != "" then error else UploadFailed
  }

  /** The reply the dialog gets from the endpoint's answer. */
  function ReplyOf(response: BulkImport.Response): Reply {
    match response
    case Rejected(_, error) => Refused(error)
    case Completed(results) => Accepted(results)
  }

  /** The dialog's state. */
  class UploadModal {
    var file: Option<FileInfo>
    var organization: string
    var project: string
    var error: Option<string>
    var status: Status
    var results: Option<BulkImport.Tally>
    var loading: bool

    /** The submit button is enabled. */
    predicate CanSubmit()
      reads this
    {
      file.Some? && organization != "" && !loading
    }

    /** The dialog's initial state. */
    constructor ()
      ensures file == None && organization == "" && project == ""
      ensures error == None && status == Idle && results == None && !loading
    {
      file := None;
      organization := "";
      project := "";
      error := None;
      status := Idle;
      results := None;
      loading := false;
    }

    /** Opening the dialog clears every choice and the last outcome; the
        busy flag is left as it is. */
    method Open()
      modifies this
      ensures file == None && organization == "" && project == ""
      ensures error == None && status == Idle && results == None
      ensures loading == old(loading)
    {
      file := None;
      organization := "";
      project := "";
      error := None;
      status := Idle;
      results := None;
    }

    /** `handleFileChange`: no file picked changes nothing; a file that is
        not CSV leaves the previous file and sets the error; a CSV file is
        taken and clears the error. */
    method ChooseFile(picked: Option<FileInfo>)
      modifies this`file, this`error
      ensures picked.None? ==> file == old(file) && error == old(error)
      ensures picked.Some? && !AcceptsFile(picked.value) ==> file == old(file) && error == Some(CsvRequired)
      ensures picked.Some? && AcceptsFile(picked.value) ==> file == picked && error == None
    {
      if picked.Some? {
        var f := picked.value;
        if f.mimeType != "text/csv" && !EndsWith(f.name, ".csv") {
          error := Some(CsvRequired);
          return;
        }
        file := Some(f);
        error := None;
      }
    }

    /** The organisation select. The application choice is kept. */
    method SelectOrganization(id: string)
      modifies this`organization
      ensures organization == id
    {
      organization := id;
    }

    /** The application select. */
    method SelectProject(id: string)
      modifies this`project
      ensures project == id
    {
      project := id;
    }

    /** `handleSubmit` up to the request: when a check fails its message is
        shown and nothing is sent; otherwise the dialog is busy, the error
        is cleared and the request is returned. */
    method Submit() returns (request: Option<Request>)
      modifies this`error, this`status, this`loading
      ensures request.None? <==> SubmitCheck(old(file), organization).Some?
      ensures request.None? ==> error == SubmitCheck(old(file), organization)
                                && status == old(status) && loading == old(loading)
      ensures request.Some? ==>
                && request.value == Request(file.value, organization, ApplicationField(project))
                && error == None && status == Processing && loading
    {
      if file.None? {
        error := Some(CsvRequired);
        return None;
      }
      if organization == "" {
        error := Some(OrganizationRequired);
        return None;
      }
      loading := true;
      status := Processing;
      error := None;
      var app: Option<string> := None;
      if project != "" && project != NoApplication {
        app := Some(project);
      }
      return Some(Request(file.value, organization, app));
    }

    /** The rest of `handleSubmit`: the state the reply leaves, and whether
        `onSuccess` is called (only for an upload with no failed row). */
    method Finish(reply: Reply) returns (notify: bool)
      modifies this`error, this`status, this`results, this`loading
      ensures !loading
      ensures notify <==> reply.Accepted? && reply.results.failed == 0
      ensures reply.Refused? ==> status == Failed && error == Some(RefusalMessage(reply.error)) && results == old(results)
      ensures reply.Accepted? ==> status == Succeeded && results == Some(reply.results) && error == old(error)
      ensures reply.Threw? ==> status == Failed && error == Some(UploadRetry) && results == old(results)
    {
      notify := false;
      loading := false;
      match reply
      case Refused(message) =>
        error := Some(if message != "" then message else UploadFailed);
        status := Failed;
      case Accepted(tally) =>
        results := Some(tally);
        status := Succeeded;
        notify := tally.failed == 0;
      case Threw =>
        error := Some(UploadRetry);
        status := Failed;
    }
  }

  // ---------------------------------------------------------------------
  // The template.

  const TemplateHeader: seq<string> := [
    "manufacturer_part_number", "manufacturer", "client_part_number", "name", "description",
    "machine", "assembly", "part_type", "voltage", "shaft_size", "gearbox_ratio",
    "power_rating_hp", "power_rating_kw", "estimated_lead_time_days", "price_type",
    "unit_price", "repair_price", "is_repairable"]

  const SampleGearbox: seq<string> := [
    "MPN001", "Acme Corp", "", "Sample Gearbox", "High-performance industrial gearbox",
    "Machine A", "Assembly 1", "Gearbox", "480V", "25mm", "10:1", "5", "3.7", "30",
    "fixed", "99.99", "", "false"]

  const SampleDrive: seq<string> := [
    "MPN002", "Beta Industries", "CLIENT123", "Motor Drive Unit", "Variable speed motor drive",
    "Machine B", "Assembly 2", "Motor", "240V", "30mm", "20:1", "10", "7.5", "45",
    "non_fixed", "", "", "true"]

  /** The three lines of `parts_template.csv`. */
  const TemplateLines: seq<string> := [Join(TemplateHeader, ","), Join(SampleGearbox, ","), Join(SampleDrive, ",")]

  /** The text of `parts_template.csv`. */
  const Template: string := Join(TemplateLines, "\n")

  /** The application a request names, '' for none, as the endpoint reads
      the form field. */
  function ApplicationParam(request: Request): (app: string)
    ensures app == "" <==> request.applicationId.None? || request.applicationId.value == ""
  {
    if request.applicationId.Some? then request.applicationId.value else ""
  }

  /** The endpoint's answer to a request, given the file's text. */
  function Endpoint(t: Tables, organizations: set<string>, applications: set<(string, string)>,
                    request: Request, content: string, faults: seq<BulkImport.RowFaults>): BulkImport.Outcome
  {
    BulkImport.UploadSpec(t, organizations, applications, Some(content), request.organizationId,
                          ApplicationParam(request), faults)
  }

  // ---------------------------------------------------------------------
  // Properties of the dialog and its requests.

  /** "No specific application" and no choice at all send the same request:
      neither carries an application. */
  lemma NoApplicationNotSent(f: FileInfo, organization: string)
    ensures Request(f, organization, ApplicationField(NoApplication)) == Request(f, organization, ApplicationField(""))
    ensures ApplicationParam(Request(f, organization, ApplicationField(NoApplication))) == ""
  {
  }

  /** The application choice survives a change of organisation, so an
      application of the organisation chosen before is still sent, and the
      endpoint refuses it without touching the tables. */
  lemma StaleApplicationRefused(t: Tables, organizations: set<string>, applications: set<(string, string)>,
                                f: FileInfo, organization: string, project: string, content: string,
                                faults: seq<BulkImport.RowFaults>)
    requires organization != "" && organization in organizations
    requires project != "" && project != NoApplication
    requires (project, organization) !in applications
    ensures var out := Endpoint(t, organizations, applications, Request(f, organization, ApplicationField(project)), content, faults);
            out.tables == t && out.response == BulkImport.Rejected(400, "Invalid application for this organization")
  {
  }

  /** Every refusal of the endpoint carries a message, so the dialog shows
      the endpoint's own words rather than the fallback. */
  lemma RefusalShowsEndpointError(t: Tables, organizations: set<string>, applications: set<(string, string)>,
                                  request: Request, content: string, faults: seq<BulkImport.RowFaults>)
    requires Endpoint(t, organizations, applications, request, content, faults).response.Rejected?
    ensures var response := Endpoint(t, organizations, applications, request, content, faults).response;
            ReplyOf(response).Refused? && RefusalMessage(ReplyOf(response).error) == response.error
  {
  }

  // ---------------------------------------------------------------------
  // Properties of the template.

  /** The template's header lists every column the reader requires. */
  lemma TemplateNamesRequired()
    ensures forall x :: x in Required ==> x in TemplateHeader
  {
  }

  // The facts the read-back lemmas need about the three literal lines,
  // one property per lemma: together they are too costly for one proof.

  lemma HeaderFieldsTrimmed()
    ensures forall k :: 0 <= k < |TemplateHeader| ==> Trimmed(TemplateHeader[k])
  {
  }

  lemma HeaderFieldsLackComma()
    ensures forall k :: 0 <= k < |TemplateHeader| ==> ',' !in TemplateHeader[k]
  {
  }

  lemma HeaderFieldsLackBreak()
    ensures forall k :: 0 <= k < |TemplateHeader| ==> '\n' !in TemplateHeader[k]
  {
  }

  lemma HeaderInLowerCase()
    ensures forall k, i :: 0 <= k < |TemplateHeader| && 0 <= i < |TemplateHeader[k]| ==> !('A' <= TemplateHeader[k][i] <= 'Z')
  {
  }

  lemma GearboxFieldsTrimmed()
    ensures forall k :: 0 <= k < |SampleGearbox| ==> Trimmed(SampleGearbox[k])
  {
  }

  lemma GearboxFieldsLackComma()
    ensures forall k :: 0 <= k < |SampleGearbox| ==> ',' !in SampleGearbox[k]
  {
  }

  lemma GearboxFieldsLackBreak()
    ensures forall k :: 0 <= k < |SampleGearbox| ==> '\n' !in SampleGearbox[k]
  {
  }

  lemma GearboxFieldsPlain()
    ensures forall k :: 0 <= k < |SampleGearbox| ==> Trimmed(SampleGearbox[k]) && ',' !in SampleGearbox[k] && '\n' !in SampleGearbox[k]
  {
    GearboxFieldsTrimmed();
    GearboxFieldsLackComma();
    GearboxFieldsLackBreak();
  }

  lemma DriveFieldsTrimmed()
    ensures forall k :: 0 <= k < |SampleDrive| ==> Trimmed(SampleDrive[k])
  {
  }

  lemma DriveFieldsLackComma()
    ensures forall k :: 0 <= k < |SampleDrive| ==> ',' !in SampleDrive[k]
  {
  }

  lemma DriveFieldsLackBreak()
    ensures forall k :: 0 <= k < |SampleDrive| ==> '\n' !in SampleDrive[k]
  {
  }

  lemma DriveFieldsPlain()
    ensures forall k :: 0 <= k < |SampleDrive| ==> Trimmed(SampleDrive[k]) && ',' !in SampleDrive[k] && '\n' !in SampleDrive[k]
  {
    DriveFieldsTrimmed();
    DriveFieldsLackComma();
    DriveFieldsLackBreak();
  }

  /** The fields of a line written as `fields.join(',')` are read back
      as they were, when none has a comma or surrounding blanks. */
  lemma FieldsReadBack(fields: seq<string>)
    requires |fields| >= 1
    requires forall k :: 0 <= k < |fields| ==> Trimmed(fields[k]) && ',' !in fields[k]
    ensures FieldValues(Join(fields, ",")) == fields
  {
    SplitJoin(fields, ',');
    TrimAllTrimmed(fields);
  }

  /** The same for a header line whose names are in lower case. */
  lemma NamesReadBack(names: seq<string>)
    requires |names| >= 1
    requires forall k :: 0 <= k < |names| ==> Trimmed(names[k]) && ',' !in names[k]
    requires forall k, i :: 0 <= k < |names| && 0 <= i < |names[k]| ==> !('A' <= names[k][i] <= 'Z')
    ensures HeaderNames(Join(names, ",")) == names
  {
    SplitJoin(names, ',');
    NormaliseHeadersPlain(names);
  }

  /** A line written as `fields.join(',')` has no line break when no field
      has one, starts with the first field and ends with the last. */
  lemma LineShape(fields: seq<string>)
    requires |fields| >= 1
    requires forall k :: 0 <= k < |fields| ==> '\n' !in fields[k]
    ensures '\n' !in Join(fields, ",")
    ensures StartsWith(Join(fields, ","), fields[0]) && EndsWith(Join(fields, ","), fields[|fields| - 1])
  {
    JoinLacks(fields, ",", '\n');
    JoinEnds(fields, ",");
  }

  /** Lines that survive being joined with '\n' and read back: none has a
      line break, and the text starts and ends with a visible character. */
  predicate ReadableLines(lines: seq<string>) {
    && |lines| >= 1 && |lines[0]| >= 1 && |lines[|lines| - 1]| >= 1
    && !IsWhitespace(lines[0][0]) && !IsWhitespace(lines[|lines| - 1][|lines[|lines| - 1]| - 1])
    && forall k :: 0 <= k < |lines| ==> '\n' !in lines[k]
  }

  /** Lines joined with '\n' are read back as they were, when none has a
      line break and the text starts and ends with a visible character. */
  lemma LinesReadBack(lines: seq<string>)
    requires ReadableLines(lines)
    ensures Lines(Join(lines, "\n")) == lines
  {
    var text := Join(lines, "\n");
    var first := lines[0];
    var last := lines[|lines| - 1];
    JoinEnds(lines, "\n");
    assert text[0] == text[..|first|][0] == first[0];
    assert text[|text| - 1] == text[|text| - |last|..][|last| - 1] == last[|last| - 1];
    TrimOfTrimmed(text);
    SplitJoin(lines, '\n');
  }

  /** No line of the template has a line break. */
  lemma TemplateLinesUnbroken()
    ensures forall k :: 0 <= k < |TemplateLines| ==> '\n' !in TemplateLines[k]
  {
    HeaderFieldsLackBreak();
    GearboxFieldsPlain();
    DriveFieldsPlain();
    forall k | 0 <= k < |TemplateLines|
      ensures '\n' !in TemplateLines[k]
    {
      if k == 0 {
        LineShape(TemplateHeader);
      } else if k == 1 {
        LineShape(SampleGearbox);
      } else {
        LineShape(SampleDrive);
      }
    }
  }

  /** The template starts with the 'm' of its first column name and ends
      with the 'e' of the last sample's "true". */
  lemma TemplateEnds()
    ensures |TemplateLines| == 3
    ensures |TemplateLines[0]| >= 1 && TemplateLines[0][0] == 'm'
    ensures var last := TemplateLines[2]; |last| >= 1 && last[|last| - 1] == 'e'
  {
    HeaderFieldsLackBreak();
    DriveFieldsPlain();
    LineShape(TemplateHeader);
    LineShape(SampleDrive);
    var header := Join(TemplateHeader, ",");
    var last := Join(SampleDrive, ",");
    assert header[0] == header[..|TemplateHeader[0]|][0];
    assert last[|last| - 1] == last[|last| - |SampleDrive[17]|..][|SampleDrive[17]| - 1];
  }

  /** The reader cuts the template into its three lines. */
  lemma TemplateLinesRead()
    ensures Lines(Template) == TemplateLines
  {
    TemplateLinesReadable();
    LinesReadBack(TemplateLines);
  }

  lemma TemplateLinesReadable()
    ensures ReadableLines(TemplateLines)
  {
    TemplateVisibleEnds();
    TemplateLinesUnbroken();
  }

  lemma TemplateVisibleEnds()
    ensures && |TemplateLines| >= 1 && |TemplateLines[0]| >= 1 && |TemplateLines[|TemplateLines| - 1]| >= 1
            && !IsWhitespace(TemplateLines[0][0])
            && !IsWhitespace(TemplateLines[|TemplateLines| - 1][|TemplateLines[|TemplateLines| - 1]| - 1])
  {
    TemplateEnds();
    VisibleEnds(TemplateLines);
  }

  /** Three lines, the first starting with 'm' and the last ending with
      'e', start and end with a visible character. */
  lemma VisibleEnds(lines: seq<string>)
    requires |lines| == 3 && |lines[0]| >= 1 && lines[0][0] == 'm'
    requires |lines[2]| >= 1 && lines[2][|lines[2]| - 1] == 'e'
    ensures && |lines| >= 1 && |lines[0]| >= 1 && |lines[|lines| - 1]| >= 1
            && !IsWhitespace(lines[0][0])
            && !IsWhitespace(lines[|lines| - 1][|lines[|lines| - 1]| - 1])
  {
  }

  /** The reader takes the header line's names and each sample line's
      fields exactly as the template writes them. */
  lemma TemplateFieldsRead()
    ensures HeaderNames(TemplateLines[0]) == TemplateHeader
    ensures FieldValues(TemplateLines[1]) == SampleGearbox
    ensures FieldValues(TemplateLines[2]) == SampleDrive
  {
    TemplateHeaderRead();
    GearboxLineRead();
    DriveLineRead();
  }

  lemma TemplateHeaderRead()
    ensures HeaderNames(TemplateLines[0]) == TemplateHeader
  {
    HeaderFieldsTrimmed();
    HeaderFieldsLackComma();
    HeaderInLowerCase();
    NamesReadBack(TemplateHeader);
  }

  lemma GearboxLineRead()
    ensures FieldValues(TemplateLines[1]) == SampleGearbox
  {
    GearboxFieldsPlain();
    FieldsReadBack(SampleGearbox);
  }

  lemma DriveLineRead()
    ensures FieldValues(TemplateLines[2]) == SampleDrive
  {
    DriveFieldsPlain();
    FieldsReadBack(SampleDrive);
  }

  /** Both sample lines have one field per column and a valid price type. */
  lemma SamplesWellFormed()
    ensures WellFormed(TemplateHeader, SampleGearbox) && WellFormed(TemplateHeader, SampleDrive)
  {
  }

  /** A text of three lines is read as two rows when its header names the
      required columns and both data lines are well formed. */
  lemma ThreeLinesAccepted(content: string, header: seq<string>, first: seq<string>, second: seq<string>)
    requires |Lines(content)| == 3 && HeaderNames(Lines(content)[0]) == header
    requires FieldValues(Lines(content)[1]) == first && FieldValues(Lines(content)[2]) == second
    requires forall x :: x in Required ==> x in header
    requires WellFormed(header, first) && WellFormed(header, second)
    ensures ParseSpec(content).Done? && |ParseSpec(content).value| == 2
  {
    var lines := Lines(content);
    forall i | 1 <= i < |lines|
      ensures WellFormed(HeaderNames(lines[0]), FieldValues(lines[i]))
    {
      assert i == 1 || i == 2;
    }
    ParseSpecDoneIff(content);
  }

  /** The downloaded template is accepted by the bulk-upload reader as two
      data rows. */
  lemma TemplateAccepted()
    ensures ParseSpec(Template).Done? && |ParseSpec(Template).value| == 2
  {
    TemplateLinesRead();
    TemplateFieldsRead();
    TemplateNamesRequired();
    SamplesWellFormed();
    ThreeLinesAccepted(Template, TemplateHeader, SampleGearbox, SampleDrive);
  }

  /** Uploading the template to a known organisation with no application
      tallies both sample rows. */
  lemma TemplateUploadTalliesTwoRows(t: Tables, organizations: set<string>, applications: set<(string, string)>,
                                     f: FileInfo, organization: string, faults: seq<BulkImport.RowFaults>)
    requires organization != "" && organization in organizations
    ensures var out := Endpoint(t, organizations, applications, Request(f, organization, None), Template, faults);
            out.response.Completed? && out.response.results.success + out.response.results.failed == 2
  {
    TemplateAccepted();
    TemplateLinesRead();
    BulkImport.UploadCountsLines(t, organizations, applications, Template, organization, "", faults);
  }

  /** A cell of the first data row of a successful parse: the coercion of
      its field under its column's last header. */
  lemma FirstRowCell(content: string, header: seq<string>, first: seq<string>, j: nat)
    requires ParseSpec(content).Done? && |Lines(content)| >= 2
    requires HeaderNames(Lines(content)[0]) == header && FieldValues(Lines(content)[1]) == first
    requires j < |header| && LastForKey(header, j, |header|)
    ensures |ParseSpec(content).value| >= 1 && |first| == |header|
    ensures Coerce(header[j], first[j]).Some? && KeyOf(header[j]) in ParseSpec(content).value[0]
    ensures ParseSpec(content).value[0][KeyOf(header[j])] == Coerce(header[j], first[j]).value
  {
    var lines := Lines(content);
    var table := Table(lines);
    assert ParseSpec(content) == ParseRows(header, table, |lines|);
    ParsedRowCells(header, table, |lines|, 0, j);
  }

  /** The same for a plain text column: the cell holds the field's text. */
  lemma FirstRowText(content: string, header: seq<string>, first: seq<string>, j: nat)
    requires ParseSpec(content).Done? && |Lines(content)| >= 2
    requires HeaderNames(Lines(content)[0]) == header && FieldValues(Lines(content)[1]) == first
    requires j < |header| && LastForKey(header, j, |header|) && j < |first| && first[j] != ""
    requires KeyOf(header[j]) == header[j] && IsTextColumn(header[j]) && header[j] != "price_type"
    ensures |ParseSpec(content).value| >= 1 && header[j] in ParseSpec(content).value[0]
    ensures ParseSpec(content).value[0][header[j]] == Text(first[j])
  {
    FirstRowCell(content, header, first, j);
    CoerceTable(header[j], first[j]);
  }

  /** The machine and assembly columns are plain text columns named once
      in the template, and the first sample fills both. */
  lemma PlacementColumns()
    ensures TemplateHeader[5] == "machine" && LastForKey(TemplateHeader, 5, |TemplateHeader|)
    ensures TemplateHeader[6] == "assembly" && LastForKey(TemplateHeader, 6, |TemplateHeader|)
    ensures IsTextColumn("machine") && IsTextColumn("assembly") && KeyOf("machine") == "machine" && KeyOf("assembly") == "assembly"
    ensures SampleGearbox[5] == "Machine A" && SampleGearbox[6] == "Assembly 1"
  {
  }

  /** The template read as its lines and fields. */
  lemma TemplateRead()
    ensures ParseSpec(Template).Done? && |ParseSpec(Template).value| == 2 && |Lines(Template)| >= 2
    ensures HeaderNames(Lines(Template)[0]) == TemplateHeader && FieldValues(Lines(Template)[1]) == SampleGearbox
  {
    TemplateAccepted();
    TemplateLinesRead();
    TemplateFieldsRead();
  }

  /** The reader keeps the first sample's machine and assembly. */
  lemma TemplatePlacementParsed()
    ensures ParseSpec(Template).Done? && |ParseSpec(Template).value| == 2
    ensures var row := ParseSpec(Template).value[0];
            && "machine" in row && row["machine"] == Text("Machine A")
            && "assembly" in row && row["assembly"] == Text("Assembly 1")
  {
    TemplateRead();
    PlacementColumns();
    FirstRowText(Template, TemplateHeader, SampleGearbox, 5);
    FirstRowText(Template, TemplateHeader, SampleGearbox, 6);
  }

  /** As the import is written, the part inserted for the first sample has
      neither its machine nor its assembly. */
  lemma TemplatePlacementDropped()
    ensures ParseSpec(Template).Done? && |ParseSpec(Template).value| == 2
    ensures var row := ParseSpec(Template).value[0];
            && BulkImport.Lookup(row, "machine") == Text("Machine A")
            && BulkImport.PartFromRow(row).machine == Null
            && BulkImport.Lookup(row, "assembly") == Text("Assembly 1")
            && BulkImport.PartFromRow(row).assembly == Null
  {
    TemplatePlacementParsed();
  }

  /** With the placement columns kept, the first sample is inserted with
      the machine and assembly the template gives it. */
  lemma TemplatePlacementKept()
    ensures ParseSpec(Template).Done? && |ParseSpec(Template).value| == 2
    ensures var part := BulkImport.PlacedPartFromRow(ParseSpec(Template).value[0]);
            part.machine == Text("Machine A") && part.assembly == Text("Assembly 1")
  {
    TemplatePlacementParsed();
  }
}
