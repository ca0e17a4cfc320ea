/**
  Filling the submittal form template. Each logical field has an ordered
  list of candidate field names; the first candidate that names a field of
  the right kind in the template, and whose write succeeds, receives the
  value, and the later candidates are left alone. A candidate that is
  missing, of the other kind, or whose write fails, is passed over. When
  the template cannot be fetched or loaded a generated cover page is used
  instead; when flattening the filled form fails the filled form is kept
  as it is.
 */
module FormFill {
  import opened Common

  datatype FieldKind = TextField | CheckBox

  /** A field of the template: its kind, and whether a write to it succeeds (a text longer than the field's limit is refused). */
  datatype TemplateField = TemplateField(kind: FieldKind, acceptsWrite: bool)

  /** What the fill writes: text into a text field, checked or unchecked into a checkbox. */
  datatype FieldValue = Text(text: string) | Checked(on: bool)

  function KindOf(v: FieldValue): FieldKind
  {
    if v.Text? then TextField else CheckBox
  }

  /** One logical field: its candidate names, in the order they are tried, and its value. */
  datatype Mapping = Mapping(names: seq<string>, value: FieldValue)

  datatype Status = Status(forReview: bool, forApproval: bool, forRecord: bool, forInformationOnly: bool)

  datatype SubmittalType = SubmittalType(
    tds: bool, threePartSpecs: bool, testReportIccEsr5194: bool, testReportIccEsl1645: bool,
    fireAssembly: bool, fireAssembly01: bool, fireAssembly02: bool, fireAssembly03: bool,
    msds: bool, leedGuide: bool, installationGuide: bool, warranty: bool, samples: bool, other: bool)

  /** The project data the form is filled from. */
  datatype ProjectData = ProjectData(
    projectName: string, submittedTo: string, preparedBy: string, date: string,
    projectNumber: Option<string>, emailAddress: string, phoneNumber: string,
    status: Status, submittalType: SubmittalType)

  /** The text fields, in the order they are filled; a missing project number is written as the empty text. */
  function TextMappings(pd: ProjectData): seq<Mapping>
  {
    [ Mapping(["Submitted To", "submittedTo", "submitted_to"], Text(pd.submittedTo)),
      Mapping(["Project Name", "projectName", "project_name"], Text(pd.projectName)),
      Mapping(["Project Number", "projectNumber", "project_number"],
              Text(if pd.projectNumber.Some? then pd.projectNumber.value else "")),
      Mapping(["Prepared By", "preparedBy", "prepared_by"], Text(pd.preparedBy)),
      Mapping(["Phone/Email", "phoneEmail", "phone_email", "PhoneEmail"], Text(pd.phoneNumber + " / " + pd.emailAddress)),
      Mapping(["Date", "date"], Text(pd.date)) ]
  }

  /** The status checkboxes. */
  function StatusMappings(s: Status): seq<Mapping>
  {
    [ Mapping(["For Review", "forReview", "for_review"], Checked(s.forReview)),
      Mapping(["For Approval", "forApproval", "for_approval"], Checked(s.forApproval)),
      Mapping(["For Record", "forRecord", "for_record"], Checked(s.forRecord)),
      Mapping(["For Information Only", "forInformationOnly", "for_information_only"], Checked(s.forInformationOnly)) ]
  }

  /** The submittal type checkboxes. */
  function SubmittalMappings(t: SubmittalType): seq<Mapping>
  {
    [ Mapping(["TDS", "tds"], Checked(t.tds)),
      Mapping(["3-Part Specs", "3PartSpecs", "threePartSpecs"], Checked(t.threePartSpecs)),
      Mapping(["Test Report ICC-ESR 5194", "testReportIccEsr5194"], Checked(t.testReportIccEsr5194)),
      Mapping(["Test Report ICC-ESL 1645", "testReportIccEsl1645"], Checked(t.testReportIccEsl1645)),
      Mapping(["Fire Assembly", "fireAssembly"], Checked(t.fireAssembly)),
      Mapping(["Fire Assembly 01", "fireAssembly01"], Checked(t.fireAssembly01)),
      Mapping(["Fire Assembly 02", "fireAssembly02"], Checked(t.fireAssembly02)),
      Mapping(["Fire Assembly 03", "fireAssembly03"], Checked(t.fireAssembly03)),
      Mapping(["MSDS", "msds", "Material Safety Data Sheet"], Checked(t.msds)),
      Mapping(["LEED Guide", "leedGuide"], Checked(t.leedGuide)),
      Mapping(["Installation Guide", "installationGuide"], Checked(t.installationGuide)),
      Mapping(["Warranty", "warranty"], Checked(t.warranty)),
      Mapping(["Samples", "samples"], Checked(t.samples)),
      Mapping(["Other", "other"], Checked(t.other)) ]
  }

  /** All mappings, in the order the three loops run. */
  function AllMappings(pd: ProjectData): seq<Mapping>
  {
    TextMappings(pd) + StatusMappings(pd.status) + SubmittalMappings(pd.submittalType)
  }

  /** Looking `name` up as a field of `kind` succeeds, and so does writing to it. */
  predicate Resolves(fields: map<string, TemplateField>, name: string, kind: FieldKind)
  {
    name in fields && fields[name].kind == kind && fields[name].acceptsWrite
  }

  /** The first candidate, from position j on, that resolves. */
  function FirstMatch(fields: map<string, TemplateField>, names: seq<string>, kind: FieldKind, j: nat): (r: Option<nat>)
    requires j <= |names|
    ensures r.Some? ==> j <= r.value < |names| && Resolves(fields, names[r.value], kind)
    ensures r.Some? ==> forall k :: j <= k < r.value ==> !Resolves(fields, names[k], kind)
    ensures r.None? <==> forall k :: j <= k < |names| ==> !Resolves(fields, names[k], kind)
    decreases |names| - j
  {
    if j == |names| then None
    else if Resolves(fields, names[j], kind) then Some(j)
    else FirstMatch(fields, names, kind, j + 1)
  }

  /** The values after one mapping: its first resolving candidate gets the value, and nothing else changes. */
  function Apply(values: map<string, FieldValue>, fields: map<string, TemplateField>, m: Mapping): map<string, FieldValue>
  {
    var first := FirstMatch(fields, m.names, KindOf(m.value), 0);
    if first.Some? then values[m.names[first.value] := m.value] else values
  }

  /** The values after the mappings, applied in order. */
  function ApplyAll(values: map<string, FieldValue>, fields: map<string, TemplateField>, ms: seq<Mapping>): map<string, FieldValue>
    decreases |ms|
  {
    if ms == [] then values else ApplyAll(Apply(values, fields, ms[0]), fields, ms[1..])
  }

  /** The form of a loaded template: its fields, the values written so far, and whether it has been flattened. */
  class Form {
    const fields: map<string, TemplateField>
    var values: map<string, FieldValue>
    var flattened: bool

    constructor (fields: map<string, TemplateField>)
      ensures this.fields == fields && values == map[] && !flattened
    {
      this.fields := fields;
      values := map[];
      flattened := false;
    }

    /** Tries the candidate names in order and writes the value to the first that resolves. */
    method FillFirst(m: Mapping)
      modifies this
      ensures values == Apply(old(values), fields, m)
      ensures flattened == old(flattened)
    {
      var kind := KindOf(m.value);
      for j := 0 to |m.names|
        invariant values == old(values)
        invariant forall k :: 0 <= k < j ==> !Resolves(fields, m.names[k], kind)
      {
        var name := m.names[j];
        if name in fields && fields[name].kind == kind && fields[name].acceptsWrite {
          values := values[name := m.value];
          break;
        }
      }
    }

    /** One pass of FillFirst per mapping, in order. */
    method FillAll(ms: seq<Mapping>)
      modifies this
      ensures values == ApplyAll(old(values), fields, ms)
      ensures flattened == old(flattened)
    {
      for i := 0 to |ms|
        invariant ApplyAll(values, fields, ms[i..]) == ApplyAll(old(values), fields, ms)
        invariant flattened == old(flattened)
      {
        assert ms[i..][1..] == ms[i + 1..];
        FillFirst(ms[i]);
      }
    }
  }

  /** What reading the template yields: no response, bytes that do not load, or a form whose flattening may fail. */
  datatype TemplateOutcome = FetchFails | LoadThrows | Loaded(fields: map<string, TemplateField>, flattenThrows: bool)

  /** The pages that open the packet: a generated cover page, or the template with the values written into it. */
  datatype FormSource = GeneratedCover | FilledTemplate(values: map<string, FieldValue>, flattened: bool)

  /**
    Fills the template from the project data. A failed fetch, or a load
    that throws, falls back to the generated cover; a flatten that throws
    leaves the filled form unflattened.
   */
  method LoadAndFillTemplate(template: TemplateOutcome, pd: ProjectData) returns (r: FormSource)
    ensures !template.Loaded? <==> r == GeneratedCover
    ensures template.Loaded? ==> r == FilledTemplate(ApplyAll(map[], template.fields, AllMappings(pd)), !template.flattenThrows)
  {
    match template {
      case FetchFails =>
        r := GeneratedCover;
      case LoadThrows =>
        r := GeneratedCover;
      case Loaded(fields, flattenThrows) =>
        var form := new Form(fields);
        form.FillAll(TextMappings(pd));
        form.FillAll(StatusMappings(pd.status));
        form.FillAll(SubmittalMappings(pd.submittalType));
        ApplyAllAppend(map[], fields, TextMappings(pd), StatusMappings(pd.status));
        ApplyAllAppend(map[], fields, TextMappings(pd) + StatusMappings(pd.status), SubmittalMappings(pd.submittalType));
        if !flattenThrows {
          form.flattened := true;
        }
        r := FilledTemplate(form.values, form.flattened);
    }
  }

  /** Applying two lists of mappings one after the other is applying their concatenation. */
  lemma {:induction false} ApplyAllAppend(values: map<string, FieldValue>, fields: map<string, TemplateField>, a: seq<Mapping>, b: seq<Mapping>)
    ensures ApplyAll(ApplyAll(values, fields, a), fields, b) == ApplyAll(values, fields, a + b)
    decreases |a|
  {
    if a == [] {
      assert a + b == b;
    } else {
      ApplyAllAppend(Apply(values, fields, a[0]), fields, a[1..], b);
      assert (a + b)[1..] == a[1..] + b;
      assert (a + b)[0] == a[0];
    }
  }

  /**
    One mapping writes at most one field: the first candidate that resolves,
    with the mapping's value; a mapping none of whose candidates resolves
    writes nothing.
   */
  lemma ApplyWritesFirstOnly(values: map<string, FieldValue>, fields: map<string, TemplateField>, m: Mapping, n: string)
    ensures var first := FirstMatch(fields, m.names, KindOf(m.value), 0);
      (first.Some? && n == m.names[first.value] ==> n in Apply(values, fields, m) && Apply(values, fields, m)[n] == m.value)
      && (first.None? || n != m.names[first.value] ==>
            (n in Apply(values, fields, m) <==> n in values) && (n in values ==> Apply(values, fields, m)[n] == values[n]))
  {
  }

  /** Mapping m writes field n: n is its first candidate that resolves. */
  ghost predicate Writes(fields: map<string, TemplateField>, m: Mapping, n: string)
  {
    var first := FirstMatch(fields, m.names, KindOf(m.value), 0);
    first.Some? && m.names[first.value] == n
  }

  /** A field no mapping writes keeps the value it had. */
  lemma {:induction false} ApplyAllKeepsOthers(values: map<string, FieldValue>, fields: map<string, TemplateField>, ms: seq<Mapping>, n: string)
    requires forall i :: 0 <= i < |ms| ==> !Writes(fields, ms[i], n)
    ensures (n in ApplyAll(values, fields, ms) <==> n in values)
    ensures n in values ==> ApplyAll(values, fields, ms)[n] == values[n]
    decreases |ms|
  {
    if ms != [] {
      ApplyWritesFirstOnly(values, fields, ms[0], n);
      assert !Writes(fields, ms[0], n);
      ApplyAllKeepsOthers(Apply(values, fields, ms[0]), fields, ms[1..], n);
    }
  }

  /** A field holds the value of the last mapping that writes it. */
  lemma {:induction false} ApplyAllLastWriteWins(values: map<string, FieldValue>, fields: map<string, TemplateField>, ms: seq<Mapping>, i: nat, n: string)
    requires i < |ms| && Writes(fields, ms[i], n)
    requires forall k :: i < k < |ms| ==> !Writes(fields, ms[k], n)
    ensures n in ApplyAll(values, fields, ms) && ApplyAll(values, fields, ms)[n] == ms[i].value
    decreases |ms|
  {
    ApplyWritesFirstOnly(values, fields, ms[0], n);
    if i == 0 {
      forall k | 0 <= k < |ms[1..]| ensures !Writes(fields, ms[1..][k], n) {
        assert ms[1..][k] == ms[k + 1];
      }
      ApplyAllKeepsOthers(Apply(values, fields, ms[0]), fields, ms[1..], n);
    } else {
      assert ms[1..][i - 1] == ms[i];
      forall k | i - 1 < k < |ms[1..]| ensures !Writes(fields, ms[1..][k], n) {
        assert ms[1..][k] == ms[k + 1];
      }
      ApplyAllLastWriteWins(Apply(values, fields, ms[0]), fields, ms[1..], i - 1, n);
    }
  }

  /**
    The fill keeps the kinds straight: every field it writes is a template
    field of the value's kind that accepts the write.
   */
  lemma {:induction false} ApplyAllRespectsKinds(values: map<string, FieldValue>, fields: map<string, TemplateField>, ms: seq<Mapping>, n: string)
    requires n in ApplyAll(values, fields, ms)
    requires n !in values || ApplyAll(values, fields, ms)[n] != values[n]
    ensures Resolves(fields, n, KindOf(ApplyAll(values, fields, ms)[n]))
    decreases |ms|
  {
    var m := ms[0];
    var next := Apply(values, fields, m);
    ApplyWritesFirstOnly(values, fields, m, n);
    if n in next && (n !in values || next[n] != values[n]) && ApplyAll(next, fields, ms[1..])[n] == next[n] {
      assert Resolves(fields, n, KindOf(next[n]));
    } else {
      ApplyAllRespectsKinds(next, fields, ms[1..], n);
    }
  }
}
