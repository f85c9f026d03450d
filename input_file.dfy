/** Saving the solver input file (main.py `save_input_file`; trial.py holds
    a line-for-line copy). The GUI's state enters as a `Form`: the texts,
    choices and values the tabs' widgets hold when the user saves. Numeric
    values are kept as the tokens the widgets print. The file is modelled as
    its list of lines, as written by the successive `f.write` calls.

    The header is four blocks of "key = value" lines. The six sections after
    it each hold a counted list of records (module Records). The lemmas at
    the end show what each section says about the form, and that it reads
    back to the records it was written from. */
module InputFile {
  import opened Wrappers
  import opened Strings
  import opened Seqs
  import opened Widgets
  import opened Records
  import opened Keywords
  import opened BcCollect
  import Boundary
  import Geometry

  // ---------------------------------------------------------------------------
  // What the tabs hold when the user saves
  // ---------------------------------------------------------------------------

  /** The Geometry tab: both file names and the text of the connectivity choice. */
  datatype GeometryForm = GeometryForm(coordFile: string, connFile: string, connType: string)

  /** The Solver tab: combo-box texts for the choices, value tokens for the
      spin boxes, and the restart check box. */
  datatype SolverForm = SolverForm(
    simType: string, fluidEqn: string, meshEqn: string, acousticEqn: string, dims: string,
    nlMin: string, nlMax: string, nlTol: string, timeStep: string, maxSteps: string,
    rhoInf: string, linSolver: string, linTol: string, linMax: string, linRst: string,
    restart: bool, restartId: string, rstFreq: string, outType: string,
    outStart: string, outFreq: string, intFreq: string,
    nrbcX: string, nrbcY: string, nrbcZ: string, nrbcInner: string, nrbcOuter: string)

  datatype PhysicalForm = PhysicalForm(rho: string, mu: string, gamma: string, a: string)

  /** The initial conditions shown on the Boundary tab. */
  datatype InitialForm = InitialForm(
    pres: string, xvel: string, yvel: string, zvel: string,
    xdisp: string, ydisp: string, zdisp: string, psi: string)

  /** One group of the Prescribed tab: the spin-box values of its grids. */
  datatype MotionTag = MotionTag(
    heaveAmp: string, heaveFreq: string, heavePhase: string,
    pitchAmp: string, pitchFreq: string, pitchPhase: string,
    morphAmp: string, morphFreq: string, morphPhase: string,
    morphPos: string, morphDiv: string, lePosX: string, lePosY: string)

  /** Everything the file is written from. `bcTabs` are the Boundary tab's
      sub-tabs in order, `probeFiles` and `surfaceFiles` the texts of the
      Output tab's rows. */
  datatype Form = Form(
    geometry: GeometryForm, solver: SolverForm, physical: PhysicalForm,
    initial: InitialForm, bcTabs: seq<Boundary.TabContents>, motion: seq<MotionTag>,
    probeFiles: seq<string>, surfaceFiles: seq<string>)

  // ---------------------------------------------------------------------------
  // The header
  // ---------------------------------------------------------------------------

  const GeometryKeys: seq<string> := ["crdFile", "cnnFile", "elemType"]

  function GeometryValues(g: GeometryForm): (vs: seq<string>)
    ensures |vs| == |GeometryKeys|
  {
    [g.coordFile, g.connFile, ElemType(g.connType)]
  }

  const SolverKeys: seq<string> := [
    "solverType", "fluidEqn", "meshEqn", "acousticEqn", "nDims",
    "nonLinearIterMin", "nonLinearIterMax", "nonLinearTolerance", "timeStepSize", "maxTimeSteps",
    "rhoInfinity", "linearSolver", "linearSolverTol", "linearSolverIterMax", "linearSolverRstIter",
    "restartFlag", "restartTsId", "restartOutFreq", "outputFileType", "outputStartTimeStep",
    "outFreq", "intOutFreq", "acousticNRBCCentreX", "acousticNRBCCentreY", "acousticNRBCCentreZ",
    "acousticNRBCInnerRadius", "acousticNRBCOuterRadius"]

  /** The solver values in the order of SolverKeys: choices become keywords,
      the simulation type and linear solver are lower-cased. */
  function SolverValues(s: SolverForm): (vs: seq<string>)
    ensures |vs| == |SolverKeys|
  {
    [ Lower(s.simType), FluidEqn(s.fluidEqn), MeshEqn(s.meshEqn), AcousticEqn(s.acousticEqn), NDims(s.dims),
      s.nlMin, s.nlMax, s.nlTol, s.timeStep, s.maxSteps,
      s.rhoInf, Lower(s.linSolver), s.linTol, s.linMax, s.linRst,
      RestartFlag(s.restart), s.restartId, s.rstFreq, s.outType, s.outStart,
      s.outFreq, s.intFreq, s.nrbcX, s.nrbcY, s.nrbcZ,
      s.nrbcInner, s.nrbcOuter ]
  }

  const PhysicalKeys: seq<string> := ["fluidDens", "fluidVisc", "fluidGamma", "fluidSpeedOfSound"]

  function PhysicalValues(p: PhysicalForm): (vs: seq<string>)
    ensures |vs| == |PhysicalKeys|
  {
    [p.rho, p.mu, p.gamma, p.a]
  }

  const InitialKeys: seq<string> :=
    ["initPres", "initXVel", "initYVel", "initZVel", "initXDisp", "initYDisp", "initZDisp", "initPsi"]

  function InitialValues(c: InitialForm): (vs: seq<string>)
    ensures |vs| == |InitialKeys|
  {
    [c.pres, c.xvel, c.yvel, c.zvel, c.xdisp, c.ydisp, c.zdisp, c.psi]
  }

  function GeometryFields(g: GeometryForm): seq<Field> {
    Zip(GeometryKeys, GeometryValues(g))
  }

  function SolverFields(s: SolverForm): seq<Field> {
    Zip(SolverKeys, SolverValues(s))
  }

  function PhysicalFields(p: PhysicalForm): seq<Field> {
    Zip(PhysicalKeys, PhysicalValues(p))
  }

  function InitialFields(c: InitialForm): seq<Field> {
    Zip(InitialKeys, InitialValues(c))
  }

  /** A header block: its comment, its field lines, then a blank line. */
  function Block(title: string, fs: seq<Field>): (ls: seq<string>)
    ensures |ls| == |fs| + 2
  {
    ["// " + title] + FieldLines(fs) + [""]
  }

  /** The header: a title comment, a blank line, then the geometry, solver,
      fluid-property and initial-condition blocks. */
  function HeaderLines(form: Form): (ls: seq<string>)
    ensures |ls| > 2 && ls[0] == "// Input file for solver" && ls[1] == ""
  {
    var top := ["// Input file for solver", ""];
    top + (Block("Geometry details", GeometryFields(form.geometry))
      + Block("Solver details", SolverFields(form.solver))
      + Block("Fluid properties", PhysicalFields(form.physical))
      + Block("Initial conditions", InitialFields(form.initial)))
  }

  // ---------------------------------------------------------------------------
  // The sections
  // ---------------------------------------------------------------------------

  const FlowTitle := "Flow boundary conditions"
  const MeshTitle := "Mesh boundary conditions"
  const AcousticTitle := "Acoustic boundary conditions"
  const MotionTitle := "Prescribed motion details"
  const ProbeTitle := "Output time history details"
  const SurfaceTitle := "Output integrated surface details"

  /** A flow condition; the value is left out for "matchmeshvel". */
  function FlowRecord(i: nat, bc: Bc): (r: Record)
    ensures ParseNat(r.head) == Some(i)
    ensures |r.fields| == if bc.bcType == "matchmeshvel" then 3 else 4
  {
    ParseNatToString(i);
    Record(NatToString(i),
      [Field("type", bc.bcType), Field("var", bc.variable), Field("nodes", bc.nodes)]
      + (if bc.bcType != "matchmeshvel" then [Field("val", bc.value)] else []))
  }

  function FlowRecords(bcs: seq<Bc>): (rs: seq<Record>)
    ensures |rs| == |bcs|
  {
    seq(|bcs|, i requires 0 <= i < |bcs| => FlowRecord(i, bcs[i]))
  }

  /** The mesh conditions that are written: a "prescribed" one only with a
      non-zero tag. */
  function MeshKept(bc: Bc): (kept: bool)
    ensures bc.tag.GetOr(0) > 0 ==> kept
    ensures bc.bcType != "prescribed" ==> kept
  {
    bc.tag.GetOr(0) != 0 || bc.bcType != "prescribed"
  }

  function MeshFiltered(bcs: seq<Bc>): seq<Bc> {
    Filter(bcs, MeshKept)
  }

  /** A positive tag makes a mesh condition prescribed, whatever its type. */
  function MeshType(bc: Bc): (t: string)
    ensures t == "prescribed" || t == bc.bcType
    ensures bc.tag.GetOr(0) > 0 ==> t == "prescribed"
  {
    if bc.tag.GetOr(0) > 0 then "prescribed" else bc.bcType
  }

  /** A mesh condition: a prescribed one carries its tag, any other its value. */
  function MeshRecord(i: nat, bc: Bc): (r: Record)
    ensures ParseNat(r.head) == Some(i) && |r.fields| == 4
  {
    ParseNatToString(i);
    Record(NatToString(i),
      [Field("type", MeshType(bc)), Field("var", bc.variable), Field("nodes", bc.nodes)]
      + (if MeshType(bc) == "prescribed" then [Field("tag", IntToString(bc.tag.GetOr(0)))]
         else [Field("val", bc.value)]))
  }

  function MeshRecords(bcs: seq<Bc>): (rs: seq<Record>)
    ensures |rs| == |bcs|
  {
    seq(|bcs|, i requires 0 <= i < |bcs| => MeshRecord(i, bcs[i]))
  }

  function AcousticRecord(i: nat, bc: Bc): (r: Record)
    ensures ParseNat(r.head) == Some(i) && |r.fields| == 4
  {
    ParseNatToString(i);
    Record(NatToString(i),
      [Field("type", bc.bcType), Field("var", bc.variable), Field("nodes", bc.nodes), Field("val", bc.value)])
  }

  function AcousticRecords(bcs: seq<Bc>): (rs: seq<Record>)
    ensures |rs| == |bcs|
  {
    seq(|bcs|, i requires 0 <= i < |bcs| => AcousticRecord(i, bcs[i]))
  }

  const MotionKeys: seq<string> := [
    "heaveAmp", "heaveFreq", "heavePhase", "pitchAmp", "pitchFreq", "pitchPhase",
    "pitchAxisX", "pitchAxisY", "morphAmp", "morphFreq", "morphPhase",
    "morphPos", "morphDiv", "LEPosX", "LEPosY", "chordLength"]

  /** A group's values in the order of MotionKeys; the pitch axis and chord
      length are fixed. */
  function MotionValues(m: MotionTag): (vs: seq<string>)
    ensures |vs| == |MotionKeys|
  {
    [ m.heaveAmp, m.heaveFreq, m.heavePhase, m.pitchAmp, m.pitchFreq, m.pitchPhase,
      "0", "0", m.morphAmp, m.morphFreq, m.morphPhase,
      m.morphPos, m.morphDiv, m.lePosX, m.lePosY, "1" ]
  }

  /** A prescribed-motion group, tagged from 1. */
  function MotionRecord(i: nat, m: MotionTag): (r: Record)
    ensures ParseNat(r.head) == Some(i + 1) && |r.fields| == |MotionKeys|
  {
    ParseNatToString(i + 1);
    Record(NatToString(i + 1), Zip(MotionKeys, MotionValues(m)))
  }

  function MotionRecords(ms: seq<MotionTag>): (rs: seq<Record>)
    ensures |rs| == |ms|
  {
    seq(|ms|, i requires 0 <= i < |ms| => MotionRecord(i, ms[i]))
  }

  /** An output file entry, tagged from 1. */
  function FileRecord(i: nat, t: string): (r: Record)
    ensures ParseNat(r.head) == Some(i + 1) && r.fields == [Field("nodes", t)]
  {
    ParseNatToString(i + 1);
    Record(NatToString(i + 1), [Field("nodes", t)])
  }

  function FileRecords(ts: seq<string>): (rs: seq<Record>)
    ensures |rs| == |ts|
  {
    seq(|ts|, i requires 0 <= i < |ts| => FileRecord(i, ts[i]))
  }

  predicate Filled(t: string) {
    t != ""
  }

  /** The rows of an output list whose text is not empty, in order. */
  function NonEmpty(ts: seq<string>): seq<string> {
    Filter(ts, Filled)
  }

  function FlowLines(bcs: seq<Bc>): seq<string> {
    Section(FlowTitle, "numberBC", "index", FlowRecords(bcs))
  }

  function MeshLines(bcs: seq<Bc>): seq<string> {
    Section(MeshTitle, "numberBC", "index", MeshRecords(MeshFiltered(bcs)))
  }

  function AcousticLines(bcs: seq<Bc>): seq<string> {
    Section(AcousticTitle, "numberBC", "index", AcousticRecords(bcs))
  }

  function MotionLines(ms: seq<MotionTag>): seq<string> {
    Section(MotionTitle, "numberBC", "tag", MotionRecords(ms))
  }

  function FileLines(title: string, ts: seq<string>): seq<string> {
    Section(title, "numberFiles", "tag", FileRecords(NonEmpty(ts)))
  }

  // ---------------------------------------------------------------------------
  // Saving
  // ---------------------------------------------------------------------------

  /** The result of a save: the dialog was cancelled; reading the boundary
      rows raised, after the header was written; or the whole file. */
  datatype Outcome = Cancelled | Failed(written: seq<string>) | Saved(lines: seq<string>)

  /** Everything after the header: the flow section, then the rest. */
  function Body(form: Form, es: seq<Entry>): seq<string> {
    FlowLines(OfCategory(es, Flow)) + [""] + LaterSections(form, OfCategory(es, Mesh), OfCategory(es, Acoustic))
  }

  function LaterSections(form: Form, mesh: seq<Bc>, acoustic: seq<Bc>): seq<string> {
    MeshLines(mesh) + [""]
    + AcousticLines(acoustic) + [""]
    + MotionLines(form.motion) + [""]
    + FileLines(ProbeTitle, form.probeFiles) + [""]
    + FileLines(SurfaceTitle, form.surfaceFiles)
    + ["", "// End of input file"]
  }

  /** What saving to `path` yields; an empty path is a cancelled dialog. */
  function Save(path: string, form: Form): (o: Outcome)
    ensures o.Cancelled? <==> path == ""
    ensures o.Failed? ==> o.written == HeaderLines(form)
  {
    if path == "" then Cancelled
    else match Reads(form.bcTabs)
      case None => Failed(HeaderLines(form))
      case Some(es) => Saved(HeaderLines(form) + Body(form, es))
  }

  // ---------------------------------------------------------------------------
  // Writing, line by line
  // ---------------------------------------------------------------------------

  lemma FlowRecordLines(i: nat, bc: Bc)
    ensures RecordLines("index", FlowRecord(i, bc)) ==
      [Line("index", NatToString(i)), Line("type", bc.bcType), Line("var", bc.variable), Line("nodes", bc.nodes)]
      + (if bc.bcType != "matchmeshvel" then [Line("val", bc.value)] else [])
  {
  }

  method WriteFlowBcs(bcs: seq<Bc>) returns (lines: seq<string>)
    ensures lines == FlowLines(bcs)
  {
    var head := ["// " + FlowTitle, Line("numberBC", NatToString(|bcs|))];
    lines := head;
    ghost var recs := FlowRecords(bcs);
    for i := 0 to |bcs|
      invariant lines == head + Render("index", recs[..i])
    {
      var bc := bcs[i];
      var record := [Line("index", NatToString(i)), Line("type", bc.bcType), Line("var", bc.variable), Line("nodes", bc.nodes)];
      if bc.bcType != "matchmeshvel" {
        record := record + [Line("val", bc.value)];
      }
      FlowRecordLines(i, bc);
      RenderStep("index", recs, i, head, lines);
      lines := lines + record;
    }
    assert recs[..|bcs|] == recs;
  }

  lemma MeshRecordLines(i: nat, bc: Bc)
    ensures RecordLines("index", MeshRecord(i, bc)) ==
      [Line("index", NatToString(i)), Line("type", MeshType(bc)), Line("var", bc.variable), Line("nodes", bc.nodes)]
      + (if MeshType(bc) == "prescribed" then [Line("tag", IntToString(bc.tag.GetOr(0)))] else [Line("val", bc.value)])
  {
  }

  /** Writes the mesh conditions that survive the filter. */
  method WriteMeshBcs(bcs: seq<Bc>) returns (lines: seq<string>)
    ensures lines == MeshLines(bcs)
  {
    var kept := MeshFiltered(bcs);
    var head := ["// " + MeshTitle, Line("numberBC", NatToString(|kept|))];
    lines := head;
    ghost var recs := MeshRecords(kept);
    for i := 0 to |kept|
      invariant lines == head + Render("index", recs[..i])
    {
      var bc := kept[i];
      var finalType := if bc.tag.GetOr(0) > 0 then "prescribed" else bc.bcType;
      var record := [Line("index", NatToString(i)), Line("type", finalType), Line("var", bc.variable), Line("nodes", bc.nodes)];
      if finalType == "prescribed" {
        record := record + [Line("tag", IntToString(bc.tag.GetOr(0)))];
      } else {
        record := record + [Line("val", bc.value)];
      }
      MeshRecordLines(i, bc);
      RenderStep("index", recs, i, head, lines);
      lines := lines + record;
    }
    assert recs[..|kept|] == recs;
  }

  method WriteAcousticBcs(bcs: seq<Bc>) returns (lines: seq<string>)
    ensures lines == AcousticLines(bcs)
  {
    var head := ["// " + AcousticTitle, Line("numberBC", NatToString(|bcs|))];
    lines := head;
    ghost var recs := AcousticRecords(bcs);
    for i := 0 to |bcs|
      invariant lines == head + Render("index", recs[..i])
    {
      var bc := bcs[i];
      var record := [Line("index", NatToString(i)), Line("type", bc.bcType), Line("var", bc.variable),
                     Line("nodes", bc.nodes), Line("val", bc.value)];
      assert RecordLines("index", recs[i]) == record;
      RenderStep("index", recs, i, head, lines);
      lines := lines + record;
    }
    assert recs[..|bcs|] == recs;
  }

  function MotionLinesOf(i: nat, m: MotionTag): seq<string> {
    [ Line("tag", NatToString(i + 1)),
      Line("heaveAmp", m.heaveAmp), Line("heaveFreq", m.heaveFreq), Line("heavePhase", m.heavePhase),
      Line("pitchAmp", m.pitchAmp), Line("pitchFreq", m.pitchFreq), Line("pitchPhase", m.pitchPhase),
      "pitchAxisX = 0", "pitchAxisY = 0",
      Line("morphAmp", m.morphAmp), Line("morphFreq", m.morphFreq), Line("morphPhase", m.morphPhase),
      Line("morphPos", m.morphPos), Line("morphDiv", m.morphDiv),
      Line("LEPosX", m.lePosX), Line("LEPosY", m.lePosY),
      "chordLength = 1" ]
  }

  lemma MotionRecordLines(i: nat, m: MotionTag)
    ensures RecordLines("tag", MotionRecord(i, m)) == MotionLinesOf(i, m)
  {
    assert Line("pitchAxisX", "0") == "pitchAxisX = 0";
    assert Line("pitchAxisY", "0") == "pitchAxisY = 0";
    assert Line("chordLength", "1") == "chordLength = 1";
  }

  method WritePrescribedMotion(ms: seq<MotionTag>) returns (lines: seq<string>)
    ensures lines == MotionLines(ms)
  {
    var head := ["// " + MotionTitle, Line("numberBC", NatToString(|ms|))];
    lines := head;
    ghost var recs := MotionRecords(ms);
    for i := 0 to |ms|
      invariant lines == head + Render("tag", recs[..i])
    {
      var m := ms[i];
      var group := [ Line("tag", NatToString(i + 1)),
        Line("heaveAmp", m.heaveAmp), Line("heaveFreq", m.heaveFreq), Line("heavePhase", m.heavePhase),
        Line("pitchAmp", m.pitchAmp), Line("pitchFreq", m.pitchFreq), Line("pitchPhase", m.pitchPhase),
        "pitchAxisX = 0", "pitchAxisY = 0",
        Line("morphAmp", m.morphAmp), Line("morphFreq", m.morphFreq), Line("morphPhase", m.morphPhase),
        Line("morphPos", m.morphPos), Line("morphDiv", m.morphDiv),
        Line("LEPosX", m.lePosX), Line("LEPosY", m.lePosY),
        "chordLength = 1" ];
      MotionRecordLines(i, m);
      RenderStep("tag", recs, i, head, lines);
      lines := lines + group;
    }
    assert recs[..|ms|] == recs;
  }

  /** Collects the non-empty texts of an output list, then writes them
      tagged from 1. */
  method WriteFiles(title: string, texts: seq<string>) returns (lines: seq<string>)
    ensures lines == FileLines(title, texts)
  {
    var rows := [];
    for i := 0 to |texts|
      invariant rows == NonEmpty(texts[..i])
    {
      FilterSnoc(texts, i, Filled);
      if texts[i] != "" {
        rows := rows + [texts[i]];
      }
    }
    assert texts[..|texts|] == texts;
    var head := ["// " + title, Line("numberFiles", NatToString(|rows|))];
    lines := head;
    ghost var recs := FileRecords(rows);
    for i := 0 to |rows|
      invariant lines == head + Render("tag", recs[..i])
    {
      var record := [Line("tag", NatToString(i + 1)), Line("nodes", rows[i])];
      assert RecordLines("tag", recs[i]) == record;
      RenderStep("tag", recs, i, head, lines);
      lines := lines + record;
    }
    assert recs[..|rows|] == recs;
  }

  /** The save action: nothing happens when the dialog is cancelled; a failure
      while reading the boundary rows stops the file after its header. */
  method SaveInputFile(path: string, form: Form) returns (outcome: Outcome)
    ensures outcome == Save(path, form)
  {
    if path == "" {
      return Cancelled;
    }
    var header := HeaderLines(form);
    var ok, flow, mesh, acoustic := CollectBcs(form.bcTabs);
    if !ok {
      return Failed(header);
    }
    var flowLines := WriteFlowBcs(flow);
    var later := WriteLaterSections(form, mesh, acoustic);
    SavedAs(path, form, Reads(form.bcTabs).value);
    outcome := Saved(header + (flowLines + [""] + later));
  }

  lemma SavedAs(path: string, form: Form, es: seq<Entry>)
    requires path != "" && Reads(form.bcTabs) == Some(es)
    ensures Save(path, form) == Saved(HeaderLines(form) + (FlowLines(OfCategory(es, Flow)) + [""]
      + LaterSections(form, OfCategory(es, Mesh), OfCategory(es, Acoustic))))
  {
  }

  /** The sections after the flow section, each followed by a blank line,
      then the end-of-file comment. */
  method WriteLaterSections(form: Form, mesh: seq<Bc>, acoustic: seq<Bc>) returns (lines: seq<string>)
    ensures lines == LaterSections(form, mesh, acoustic)
  {
    lines := WriteMeshBcs(mesh);
    lines := lines + [""];
    var section;
    section := WriteAcousticBcs(acoustic);
    lines := lines + section + [""];
    section := WritePrescribedMotion(form.motion);
    lines := lines + section + [""];
    section := WriteFiles(ProbeTitle, form.probeFiles);
    lines := lines + section + [""];
    section := WriteFiles(SurfaceTitle, form.surfaceFiles);
    lines := lines + section + ["", "// End of input file"];
  }

  // ---------------------------------------------------------------------------
  // What the file says
  // ---------------------------------------------------------------------------

  /** Every block of the header reads back to its fields. */
  lemma {:induction false} BlockReadsBack(title: string, fs: seq<Field>)
    requires forall j :: 0 <= j < |fs| ==> ValidKey(fs[j].key)
    ensures Block(title, fs)[0] == "// " + title && Block(title, fs)[|fs| + 1] == ""
    ensures DecodeFields(Block(title, fs)[1..|fs| + 1]) == Some(fs)
  {
    assert Block(title, fs)[1..|fs| + 1] == FieldLines(fs);
    DecodeFieldLines(fs);
  }

  /** The header's keys are words, and no key appears twice in a block. */
  lemma HeaderKeysValid()
    ensures forall j :: 0 <= j < |GeometryKeys| ==> ValidKey(GeometryKeys[j])
    ensures forall j :: 0 <= j < |SolverKeys| ==> ValidKey(SolverKeys[j])
    ensures forall j :: 0 <= j < |PhysicalKeys| ==> ValidKey(PhysicalKeys[j])
    ensures forall j :: 0 <= j < |InitialKeys| ==> ValidKey(InitialKeys[j])
    ensures forall j, k :: 0 <= j < k < |GeometryKeys| ==> GeometryKeys[j] != GeometryKeys[k]
    ensures forall j, k :: 0 <= j < k < |SolverKeys| ==> SolverKeys[j] != SolverKeys[k]
  {
    SmallBlockKeysValid();
    SolverKeysValid();
    SolverKeysDistinct();
  }

  lemma SmallBlockKeysValid()
    ensures forall j :: 0 <= j < |GeometryKeys| ==> ValidKey(GeometryKeys[j])
    ensures forall j :: 0 <= j < |PhysicalKeys| ==> ValidKey(PhysicalKeys[j])
    ensures forall j :: 0 <= j < |InitialKeys| ==> ValidKey(InitialKeys[j])
    ensures forall j, k :: 0 <= j < k < |GeometryKeys| ==> GeometryKeys[j] != GeometryKeys[k]
  {
  }

  lemma SolverKeysValid()
    ensures forall j :: 0 <= j < |SolverKeys| ==> ValidKey(SolverKeys[j])
  {
    SolverKeysValidFirst();
    SolverKeysValidSecond();
    SolverKeysValidThird();
  }

  // The solver keys a third at a time: each index range is checked key by key.
  lemma SolverKeysValidFirst()
    ensures forall j :: 0 <= j < 9 ==> ValidKey(SolverKeys[j])
  {
  }

  lemma SolverKeysValidSecond()
    ensures forall j :: 9 <= j < 18 ==> ValidKey(SolverKeys[j])
  {
  }

  lemma SolverKeysValidThird()
    ensures forall j :: 18 <= j < 27 ==> ValidKey(SolverKeys[j])
  {
  }

  lemma SolverKeysDistinct()
    ensures forall j, k :: 0 <= j < k < |SolverKeys| ==> SolverKeys[j] != SolverKeys[k]
  {
  }

  /** Each block of the header reads back to its fields. */
  lemma HeaderReadsBack(form: Form)
    ensures var fs := GeometryFields(form.geometry);
      DecodeFields(Block("Geometry details", fs)[1..|fs| + 1]) == Some(fs)
    ensures var fs := SolverFields(form.solver);
      DecodeFields(Block("Solver details", fs)[1..|fs| + 1]) == Some(fs)
    ensures var fs := PhysicalFields(form.physical);
      DecodeFields(Block("Fluid properties", fs)[1..|fs| + 1]) == Some(fs)
    ensures var fs := InitialFields(form.initial);
      DecodeFields(Block("Initial conditions", fs)[1..|fs| + 1]) == Some(fs)
  {
    HeaderKeysValid();
    BlockReadsBack("Geometry details", GeometryFields(form.geometry));
    BlockReadsBack("Solver details", SolverFields(form.solver));
    BlockReadsBack("Fluid properties", PhysicalFields(form.physical));
    BlockReadsBack("Initial conditions", InitialFields(form.initial));
  }

  /** Reading the header's values back: the file names, the keywords the
      choices map to, the dimension without its "D" and the restart flag as
      0 or 1. */
  lemma HeaderValues(form: Form)
    ensures FieldValue(GeometryFields(form.geometry), "crdFile") == Some(form.geometry.coordFile)
    ensures FieldValue(GeometryFields(form.geometry), "cnnFile") == Some(form.geometry.connFile)
    ensures FieldValue(GeometryFields(form.geometry), "elemType") == Some(ElemType(form.geometry.connType))
    ensures FieldValue(SolverFields(form.solver), "solverType") == Some(Lower(form.solver.simType))
    ensures FieldValue(SolverFields(form.solver), "fluidEqn") == Some(FluidEqn(form.solver.fluidEqn))
    ensures FieldValue(SolverFields(form.solver), "meshEqn") == Some(MeshEqn(form.solver.meshEqn))
    ensures FieldValue(SolverFields(form.solver), "acousticEqn") == Some(AcousticEqn(form.solver.acousticEqn))
    ensures FieldValue(SolverFields(form.solver), "nDims") == Some(NDims(form.solver.dims))
    ensures FieldValue(SolverFields(form.solver), "restartFlag") == Some(RestartFlag(form.solver.restart))
  {
    GeometryHeaderValues(form.geometry);
    SolverHeaderValues(form.solver);
  }

  lemma GeometryHeaderValues(g: GeometryForm)
    ensures FieldValue(GeometryFields(g), "crdFile") == Some(g.coordFile)
    ensures FieldValue(GeometryFields(g), "cnnFile") == Some(g.connFile)
    ensures FieldValue(GeometryFields(g), "elemType") == Some(ElemType(g.connType))
  {
    SmallBlockKeysValid();
    var vs := GeometryValues(g);
    ZipLookup(GeometryKeys, vs, 0);
    ZipLookup(GeometryKeys, vs, 1);
    ZipLookup(GeometryKeys, vs, 2);
  }

  lemma SolverHeaderValues(sf: SolverForm)
    ensures FieldValue(SolverFields(sf), "solverType") == Some(Lower(sf.simType))
    ensures FieldValue(SolverFields(sf), "fluidEqn") == Some(FluidEqn(sf.fluidEqn))
    ensures FieldValue(SolverFields(sf), "meshEqn") == Some(MeshEqn(sf.meshEqn))
    ensures FieldValue(SolverFields(sf), "acousticEqn") == Some(AcousticEqn(sf.acousticEqn))
    ensures FieldValue(SolverFields(sf), "nDims") == Some(NDims(sf.dims))
    ensures FieldValue(SolverFields(sf), "restartFlag") == Some(RestartFlag(sf.restart))
  {
    SolverLookup(sf, 0);
    SolverLookup(sf, 1);
    SolverLookup(sf, 2);
    SolverLookup(sf, 3);
    SolverLookup(sf, 4);
    SolverLookup(sf, 15);
  }

  lemma SolverLookup(sf: SolverForm, j: nat)
    requires j < |SolverKeys|
    ensures FieldValue(SolverFields(sf), SolverKeys[j]) == Some(SolverValues(sf)[j])
  {
    SolverKeysDistinct();
    ZipLookup(SolverKeys, SolverValues(sf), j);
  }

  lemma FlowFits(bcs: seq<Bc>)
    ensures Fits("index", FlowRecords(bcs))
  {
  }

  /** What a flow record holds: its number, the condition's type, variable
      and boundary, and its value unless the type is "matchmeshvel". */
  lemma FlowRecordSays(i: nat, bc: Bc)
    ensures var r := FlowRecord(i, bc);
      ParseNat(r.head) == Some(i) &&
      Value(r, "type") == Some(bc.bcType) &&
      Value(r, "var") == Some(bc.variable) &&
      Value(r, "nodes") == Some(bc.nodes) &&
      Value(r, "val") == (if bc.bcType != "matchmeshvel" then Some(bc.value) else None)
  {
    ParseNatToString(i);
    var fs := FlowRecord(i, bc).fields;
    FieldValueAt(fs, 0, "type");
    FieldValueAt(fs, 1, "var");
    FieldValueAt(fs, 2, "nodes");
    if bc.bcType != "matchmeshvel" {
      FieldValueAt(fs, 3, "val");
    } else {
      FieldValueNone(fs, "val");
    }
  }

  /** The flow section: its count, then each condition numbered from 0 in
      the order read, with its value unless it is "matchmeshvel". */
  lemma FlowSection(bcs: seq<Bc>)
    ensures DecodeSection(FlowTitle, "numberBC", "index", FlowLines(bcs)) == Some(FlowRecords(bcs))
    ensures forall i :: 0 <= i < |bcs| ==>
      ParseNat(FlowRecords(bcs)[i].head) == Some(i) &&
      Value(FlowRecords(bcs)[i], "type") == Some(bcs[i].bcType) &&
      Value(FlowRecords(bcs)[i], "var") == Some(bcs[i].variable) &&
      Value(FlowRecords(bcs)[i], "nodes") == Some(bcs[i].nodes) &&
      Value(FlowRecords(bcs)[i], "val") == (if bcs[i].bcType != "matchmeshvel" then Some(bcs[i].value) else None)
  {
    FlowFits(bcs);
    SectionRoundTrip(FlowTitle, "numberBC", "index", FlowRecords(bcs));
    forall i | 0 <= i < |bcs| {
      FlowRecordSays(i, bcs[i]);
    }
  }

  lemma MeshFits(bcs: seq<Bc>)
    ensures Fits("index", MeshRecords(bcs))
  {
  }

  /** What a mesh record holds: a prescribed condition carries its tag and
      no value, any other its value and no tag. */
  lemma MeshRecordSays(i: nat, bc: Bc)
    ensures var r := MeshRecord(i, bc);
      ParseNat(r.head) == Some(i) &&
      Value(r, "type") == Some(MeshType(bc)) &&
      Value(r, "var") == Some(bc.variable) &&
      Value(r, "nodes") == Some(bc.nodes) &&
      (MeshType(bc) == "prescribed" ==> Value(r, "tag") == Some(IntToString(bc.tag.GetOr(0))) && Value(r, "val") == None) &&
      (MeshType(bc) != "prescribed" ==> Value(r, "val") == Some(bc.value) && Value(r, "tag") == None)
  {
    ParseNatToString(i);
    var fs := MeshRecord(i, bc).fields;
    FieldValueAt(fs, 0, "type");
    FieldValueAt(fs, 1, "var");
    FieldValueAt(fs, 2, "nodes");
    if MeshType(bc) == "prescribed" {
      FieldValueAt(fs, 3, "tag");
      FieldValueNone(fs, "val");
    } else {
      FieldValueAt(fs, 3, "val");
      FieldValueNone(fs, "tag");
    }
  }

  /** The mesh section keeps every condition except a "prescribed" one with
      tag 0, in order, and numbers them from 0. */
  lemma MeshSection(bcs: seq<Bc>)
    ensures forall bc :: bc in MeshFiltered(bcs) <==> bc in bcs && (bc.tag.GetOr(0) != 0 || bc.bcType != "prescribed")
    ensures DecodeSection(MeshTitle, "numberBC", "index", MeshLines(bcs)) == Some(MeshRecords(MeshFiltered(bcs)))
    ensures forall i :: 0 <= i < |MeshFiltered(bcs)| ==>
      MeshRecords(MeshFiltered(bcs))[i] == MeshRecord(i, MeshFiltered(bcs)[i])
  {
    FilterMembers(bcs, MeshKept);
    var kept := MeshFiltered(bcs);
    MeshFits(kept);
    SectionRoundTrip(MeshTitle, "numberBC", "index", MeshRecords(kept));
  }

  /** The type written for a mesh condition is "prescribed" exactly when its
      tag is positive or it was chosen as "prescribed"; a kept prescribed
      condition chosen as such has a non-zero tag. */
  lemma MeshTypeRule(bc: Bc)
    ensures MeshType(bc) == "prescribed" <==> bc.tag.GetOr(0) > 0 || bc.bcType == "prescribed"
    ensures MeshKept(bc) && bc.bcType == "prescribed" ==> bc.tag.GetOr(0) != 0
    ensures MeshType(bc) != "prescribed" ==> MeshType(bc) == bc.bcType
  {
  }

  lemma AcousticFits(bcs: seq<Bc>)
    ensures Fits("index", AcousticRecords(bcs))
  {
  }

  lemma AcousticRecordSays(i: nat, bc: Bc)
    ensures var r := AcousticRecord(i, bc);
      ParseNat(r.head) == Some(i) &&
      Value(r, "type") == Some(bc.bcType) &&
      Value(r, "var") == Some(bc.variable) &&
      Value(r, "nodes") == Some(bc.nodes) &&
      Value(r, "val") == Some(bc.value)
  {
    ParseNatToString(i);
    var fs := AcousticRecord(i, bc).fields;
    FieldValueAt(fs, 0, "type");
    FieldValueAt(fs, 1, "var");
    FieldValueAt(fs, 2, "nodes");
    FieldValueAt(fs, 3, "val");
  }

  /** The acoustic section: every condition, numbered from 0, with its value. */
  lemma AcousticSection(bcs: seq<Bc>)
    ensures DecodeSection(AcousticTitle, "numberBC", "index", AcousticLines(bcs)) == Some(AcousticRecords(bcs))
    ensures forall i :: 0 <= i < |bcs| ==>
      ParseNat(AcousticRecords(bcs)[i].head) == Some(i) &&
      Value(AcousticRecords(bcs)[i], "type") == Some(bcs[i].bcType) &&
      Value(AcousticRecords(bcs)[i], "var") == Some(bcs[i].variable) &&
      Value(AcousticRecords(bcs)[i], "nodes") == Some(bcs[i].nodes) &&
      Value(AcousticRecords(bcs)[i], "val") == Some(bcs[i].value)
  {
    AcousticFits(bcs);
    SectionRoundTrip(AcousticTitle, "numberBC", "index", AcousticRecords(bcs));
    forall i | 0 <= i < |bcs| {
      AcousticRecordSays(i, bcs[i]);
    }
  }

  /** The motion keys are distinct words, none of them the record key. */
  lemma MotionKeysValid()
    ensures forall j :: 0 <= j < |MotionKeys| ==> ValidKey(MotionKeys[j]) && MotionKeys[j] != "tag"
    ensures forall j, k :: 0 <= j < k < |MotionKeys| ==> MotionKeys[j] != MotionKeys[k]
  {
  }

  lemma MotionFits(ms: seq<MotionTag>)
    ensures Fits("tag", MotionRecords(ms))
  {
    MotionKeysValid();
  }

  /** The prescribed-motion section: one group per tag, numbered from 1 in
      order, each value under its own key, with the pitch axis at the origin
      and a unit chord. */
  lemma MotionSection(ms: seq<MotionTag>)
    ensures DecodeSection(MotionTitle, "numberBC", "tag", MotionLines(ms)) == Some(MotionRecords(ms))
    ensures forall i, j :: 0 <= i < |ms| && 0 <= j < |MotionKeys| ==>
      Value(MotionRecords(ms)[i], MotionKeys[j]) == Some(MotionValues(ms[i])[j])
    ensures forall i :: 0 <= i < |ms| ==>
      ParseNat(MotionRecords(ms)[i].head) == Some(i + 1) &&
      Value(MotionRecords(ms)[i], "pitchAxisX") == Some("0") &&
      Value(MotionRecords(ms)[i], "pitchAxisY") == Some("0") &&
      Value(MotionRecords(ms)[i], "chordLength") == Some("1")
  {
    MotionFits(ms);
    SectionRoundTrip(MotionTitle, "numberBC", "tag", MotionRecords(ms));
    forall i | 0 <= i < |ms|
      ensures ParseNat(MotionRecords(ms)[i].head) == Some(i + 1)
      ensures forall j :: 0 <= j < |MotionKeys| ==>
        Value(MotionRecords(ms)[i], MotionKeys[j]) == Some(MotionValues(ms[i])[j])
      ensures Value(MotionRecords(ms)[i], "pitchAxisX") == Some("0")
      ensures Value(MotionRecords(ms)[i], "pitchAxisY") == Some("0")
      ensures Value(MotionRecords(ms)[i], "chordLength") == Some("1")
    {
      MotionRecordSays(i, ms[i]);
    }
  }

  /** What one motion group holds: its tag, each value under its key, the
      pitch axis at the origin and a unit chord. */
  lemma MotionRecordSays(i: nat, m: MotionTag)
    ensures var r := MotionRecord(i, m);
      ParseNat(r.head) == Some(i + 1) &&
      (forall j :: 0 <= j < |MotionKeys| ==> Value(r, MotionKeys[j]) == Some(MotionValues(m)[j])) &&
      Value(r, "pitchAxisX") == Some("0") &&
      Value(r, "pitchAxisY") == Some("0") &&
      Value(r, "chordLength") == Some("1")
  {
    MotionKeysValid();
    ParseNatToString(i + 1);
    var vs := MotionValues(m);
    forall j | 0 <= j < |MotionKeys|
      ensures Value(MotionRecord(i, m), MotionKeys[j]) == Some(vs[j])
    {
      ZipLookup(MotionKeys, vs, j);
    }
    ZipLookup(MotionKeys, vs, 6);
    ZipLookup(MotionKeys, vs, 7);
    ZipLookup(MotionKeys, vs, 15);
  }

  /** An output list: exactly its non-empty texts, in order, numbered from 1. */
  lemma FileSection(title: string, ts: seq<string>)
    ensures forall t :: t in NonEmpty(ts) <==> t in ts && t != ""
    ensures DecodeSection(title, "numberFiles", "tag", FileLines(title, ts)) == Some(FileRecords(NonEmpty(ts)))
    ensures forall i :: 0 <= i < |NonEmpty(ts)| ==>
      ParseNat(FileRecords(NonEmpty(ts))[i].head) == Some(i + 1) &&
      Value(FileRecords(NonEmpty(ts))[i], "nodes") == Some(NonEmpty(ts)[i]) &&
      NonEmpty(ts)[i] != ""
  {
    FilterMembers(ts, Filled);
    var rows := NonEmpty(ts);
    assert Fits("tag", FileRecords(rows));
    SectionRoundTrip(title, "numberFiles", "tag", FileRecords(rows));
    forall i | 0 <= i < |rows|
      ensures ParseNat(FileRecords(rows)[i].head) == Some(i + 1) && rows[i] != ""
    {
      ParseNatToString(i + 1);
      assert rows[i] in rows;
    }
  }

  // ---------------------------------------------------------------------------
  // Saving as a whole
  // ---------------------------------------------------------------------------

  /** Nothing is written exactly when the dialog is cancelled. */
  lemma CancelledIff(path: string, form: Form)
    ensures Save(path, form) == Cancelled <==> path == ""
  {
  }

  /** The save stops after the header exactly when a boundary row cannot be
      read. */
  lemma FailedIff(path: string, form: Form)
    ensures Save(path, form).Failed? <==> path != "" && Reads(form.bcTabs).None?
    ensures Save(path, form).Failed? ==> Save(path, form).written == HeaderLines(form)
  {
  }

  /** `lines` opens with `h`, follows it with `flow` and a blank line, and
      ends with `last`. */
  predicate LaidOut(lines: seq<string>, h: seq<string>, flow: seq<string>, last: string) {
    |lines| >= |h| + |flow| + 2 &&
    lines[..|h|] == h &&
    lines[|h|..|h| + |flow|] == flow &&
    lines[|h| + |flow|] == "" &&
    lines[|lines| - 1] == last
  }

  /** A saved file opens with the header, follows it with the flow section
      and ends with the end-of-file comment. */
  lemma SavedLayout(path: string, form: Form, es: seq<Entry>)
    requires path != "" && Reads(form.bcTabs) == Some(es)
    ensures Save(path, form).Saved?
    ensures LaidOut(Save(path, form).lines, HeaderLines(form), FlowLines(OfCategory(es, Flow)), "// End of input file")
  {
    EndsWith(form, es);
    Layout(HeaderLines(form), FlowLines(OfCategory(es, Flow)), LaterSections(form, OfCategory(es, Mesh), OfCategory(es, Acoustic)));
  }

  lemma EndsWith(form: Form, es: seq<Entry>)
    ensures var later := LaterSections(form, OfCategory(es, Mesh), OfCategory(es, Acoustic));
      Body(form, es) == FlowLines(OfCategory(es, Flow)) + [""] + later &&
      |later| > 0 && later[|later| - 1] == "// End of input file"
  {
  }

  lemma Layout(h: seq<string>, flow: seq<string>, later: seq<string>)
    requires |later| > 0
    ensures LaidOut(h + (flow + [""] + later), h, flow, later[|later| - 1])
  {
  }

  /** Rows laid out by the Boundary tab always save: whatever the user types
      or selects in them, reading them raises nothing. */
  lemma BoundaryTabSaves(b: Boundary.BoundaryTab, path: string, form: Form)
    requires b.Valid() && form.bcTabs == b.Snapshot() && path != ""
    ensures Save(path, form).Saved?
  {
    BoundaryTabReads(b);
  }

  /** A connectivity type chosen on the Geometry tab is always one the map
      knows, so the element type written is its keyword, never the fallback. */
  lemma GeometryTabKeyword(g: Geometry.GeometryTab)
    requires g.Consistent()
    ensures g.ConnTypeText() in ElemTypes
    ensures ElemType(g.ConnTypeText()) == ElemTypes[g.ConnTypeText()]
  {
    OptionsCovered();
  }

  /** Choosing "matchMeshVel" on a velocity sub-tab yields the lower-cased
      type the flow writer tests for, so the record gets no value. */
  lemma MatchMeshVelWritesNoValue(t: nat, items: seq<Item>, i: nat)
    requires t < 3 && Boundary.RowShaped(Boundary.TabNames[t], items)
    requires items[Boundary.TypePos].index == 2
    ensures ReadRow(VarNames[Boundary.TabNames[t]], false, items).Read?
    ensures var bc := ReadRow(VarNames[Boundary.TabNames[t]], false, items).bc;
      bc.bcType == "matchmeshvel" && Value(FlowRecord(i, bc), "val") == None
  {
    Boundary.VelocityTabs(t);
    ShapedRowRead(VarNames[Boundary.TabNames[t]], false, Boundary.TabNames[t], items);
    LowerMatchMeshVel();
    FlowRecordSays(i, ReadRow(VarNames[Boundary.TabNames[t]], false, items).bc);
  }

  /** Choosing "prescribed" on a displacement sub-tab: with tag 0 the
      condition is dropped from the mesh section, with a positive tag it is
      written with its tag. */
  lemma PrescribedOption(t: nat, items: seq<Item>, i: nat)
    requires 3 <= t < 6 && Boundary.RowShaped(Boundary.TabNames[t], items)
    requires items[Boundary.TypePos].index == 2
    ensures ReadRow(VarNames[Boundary.TabNames[t]], true, items).Read?
    ensures var bc := ReadRow(VarNames[Boundary.TabNames[t]], true, items).bc;
      bc.bcType == "prescribed" &&
      (items[Boundary.TagPos].number == 0 <==> !MeshKept(bc)) &&
      (items[Boundary.TagPos].number > 0 ==>
        Value(MeshRecord(i, bc), "tag") == Some(IntToString(items[Boundary.TagPos].number)))
  {
    var name := Boundary.TabNames[t];
    Boundary.DisplacementTabs(t);
    assert CurrentText(items[Boundary.TypePos].options, 2) == "prescribed";
    LowerPrescribed();
    ShapedRowRead(VarNames[name], true, name, items);
    var bc := ReadRow(VarNames[name], true, items).bc;
    assert bc.bcType == "prescribed";
    MeshRecordSays(i, bc);
  }

  lemma LowerPrescribed()
    ensures Lower("prescribed") == "prescribed"
  {
  }

  lemma LowerMatchMeshVel()
    ensures Lower("matchMeshVel") == "matchmeshvel"
  {
    var l := Lower("matchMeshVel");
    assert l[5] == 'm' && l[9] == 'v';
  }
}
