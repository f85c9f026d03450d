/** The fixed tables the serialiser uses to turn the labels shown in combo
    boxes into the keywords the solver reads, each with the keyword it falls
    back on for a label it does not know (Python's `dict.get(label, default)`). */
module Keywords {
  import opened Wrappers
  import opened Strings
  import Geometry

  const ElemTypes: map<string, string> :=
    map["4-Node Quadrilateral" := "4NodeQuad", "3-Node Triangle" := "3NodeTri", "6-Node Triangle" := "6NodeTri"]

  const FluidEqns: map<string, string> :=
    map["Incompressible Navier-Stokes" := "navierStokes", "Compressible NS" := "compressibleNS",
        "Euler" := "euler", "Stokes" := "stokes"]

  const MeshEqns: map<string, string> :=
    map["None" := "none", "ALE" := "ale", "Prescribed" := "linearElasticPrescribed",
        "Linear Elasticity" := "linearElastic"]

  const AcousticEqns: map<string, string> :=
    map["None" := "none", "Linear Acoustics" := "linearAcoustics", "LPCE" := "lpce",
        "Helmholtz" := "helmholtz", "Wave Equation" := "waveEquation"]

  /** The variable each boundary-condition sub-tab sets. */
  const VarNames: map<string, string> :=
    map["X-velocity" := "xVelocity", "Y-velocity" := "yVelocity", "Z-velocity" := "zVelocity",
        "X-disp" := "xDisp", "Y-disp" := "yDisp", "Z-disp" := "zDisp",
        "Acoustic-potential" := "acousticPotential"]

  /** The options of the Solver tab's combo boxes. */
  const FluidEqnOptions: seq<string> := ["Incompressible Navier-Stokes", "Compressible NS", "Euler", "Stokes"]
  const MeshEqnOptions: seq<string> := ["None", "ALE", "Prescribed", "Linear Elasticity"]
  const AcousticEqnOptions: seq<string> := ["None", "Linear Acoustics", "LPCE", "Helmholtz", "Wave Equation"]
  const DimOptions: seq<string> := ["2D", "3D"]

  /** `m.get(k, default)`. */
  function Get(m: map<string, string>, k: string, default: string): string {
    if k in m then m[k] else default
  }

  function ElemType(choice: string): (k: string)
    ensures k in ElemTypes.Values
    ensures choice !in ElemTypes ==> k == "4NodeQuad"
  {
    assert ElemTypes["4-Node Quadrilateral"] == "4NodeQuad";
    Get(ElemTypes, choice, "4NodeQuad")
  }

  function FluidEqn(choice: string): (k: string)
    ensures k in FluidEqns.Values
    ensures choice !in FluidEqns ==> k == "navierStokes"
  {
    assert FluidEqns["Incompressible Navier-Stokes"] == "navierStokes";
    Get(FluidEqns, choice, "navierStokes")
  }

  function MeshEqn(choice: string): (k: string)
    ensures k in MeshEqns.Values
    ensures choice !in MeshEqns ==> k == "linearElasticPrescribed"
  {
    assert MeshEqns["Prescribed"] == "linearElasticPrescribed";
    Get(MeshEqns, choice, "linearElasticPrescribed")
  }

  function AcousticEqn(choice: string): (k: string)
    ensures k in AcousticEqns.Values
    ensures choice !in AcousticEqns ==> k == "none"
  {
    assert AcousticEqns["None"] == "none";
    Get(AcousticEqns, choice, "none")
  }

  /** `nDims`: the dimension choice without its 'D', every other character
      kept as often as it occurs and in its order. */
  function NDims(choice: string): (d: string)
    ensures 'D' !in d && |d| == |choice| - multiset(choice)['D']
    ensures forall x :: x != 'D' ==> multiset(d)[x] == multiset(choice)[x]
    ensures forall i :: 0 <= i < |choice| && choice[i] != 'D' ==>
      |RemoveChar(choice[..i], 'D')| < |d| && d[|RemoveChar(choice[..i], 'D')|] == choice[i]
  {
    RemoveCharSpec(choice, 'D');
    forall i | 0 <= i < |choice| && choice[i] != 'D'
      ensures |RemoveChar(choice[..i], 'D')| < |RemoveChar(choice, 'D')|
      ensures RemoveChar(choice, 'D')[|RemoveChar(choice[..i], 'D')|] == choice[i]
    {
      RemoveCharKeepsOrder(choice, 'D', i);
    }
    RemoveChar(choice, 'D')
  }

  /** `restartFlag`: 1 when the box is checked, else 0. */
  function RestartFlag(checked: bool): (s: string)
    ensures ParseNat(s) == Some(if checked then 1 else 0)
  {
    if checked then "1" else "0"
  }

  // ---------------------------------------------------------------------------
  // The tables against the options the user can pick
  // ---------------------------------------------------------------------------

  /** Every choice a combo box offers has its own keyword, so no fallback is
      taken for a choice made in the user interface. */
  lemma OptionsCovered()
    ensures forall c :: c in Geometry.ConnectivityTypes ==> c in ElemTypes
    ensures forall c :: c in FluidEqnOptions ==> c in FluidEqns
    ensures forall c :: c in MeshEqnOptions ==> c in MeshEqns
    ensures forall c :: c in AcousticEqnOptions ==> c in AcousticEqns
  {
  }

  lemma ElemTypeKeywords()
    ensures ElemType("4-Node Quadrilateral") == "4NodeQuad"
    ensures ElemType("3-Node Triangle") == "3NodeTri"
    ensures ElemType("6-Node Triangle") == "6NodeTri"
  {
  }

  lemma FluidEqnKeywords()
    ensures FluidEqn("Incompressible Navier-Stokes") == "navierStokes"
    ensures FluidEqn("Compressible NS") == "compressibleNS"
    ensures FluidEqn("Euler") == "euler"
    ensures FluidEqn("Stokes") == "stokes"
  {
  }

  lemma MeshEqnKeywords()
    ensures MeshEqn("None") == "none"
    ensures MeshEqn("ALE") == "ale"
    ensures MeshEqn("Prescribed") == "linearElasticPrescribed"
    ensures MeshEqn("Linear Elasticity") == "linearElastic"
  {
  }

  lemma AcousticEqnKeywords()
    ensures AcousticEqn("None") == "none"
    ensures AcousticEqn("Linear Acoustics") == "linearAcoustics"
    ensures AcousticEqn("LPCE") == "lpce"
    ensures AcousticEqn("Helmholtz") == "helmholtz"
    ensures AcousticEqn("Wave Equation") == "waveEquation"
  {
  }

  /** Each table sends different labels to different keywords, so the
      keyword written determines the choice chosen. */
  lemma ElemTypeInjective(a: string, b: string)
    requires a in ElemTypes && b in ElemTypes && ElemType(a) == ElemType(b)
    ensures a == b
  {
  }

  lemma FluidEqnInjective(a: string, b: string)
    requires a in FluidEqns && b in FluidEqns && FluidEqn(a) == FluidEqn(b)
    ensures a == b
  {
  }

  lemma MeshEqnInjective(a: string, b: string)
    requires a in MeshEqns && b in MeshEqns && MeshEqn(a) == MeshEqn(b)
    ensures a == b
  {
  }

  lemma AcousticEqnInjective(a: string, b: string)
    requires a in AcousticEqns && b in AcousticEqns && AcousticEqn(a) == AcousticEqn(b)
    ensures a == b
  {
  }

  /** The falling-back keyword of the mesh and acoustic tables is the one a
      listed choice also gives. */
  lemma Fallbacks(choice: string)
    ensures choice !in MeshEqns ==> MeshEqn(choice) == MeshEqn("Prescribed")
    ensures choice !in AcousticEqns ==> AcousticEqn(choice) == AcousticEqn("None")
    ensures choice !in FluidEqns ==> FluidEqn(choice) == FluidEqn("Incompressible Navier-Stokes")
    ensures choice !in ElemTypes ==> ElemType(choice) == ElemType("4-Node Quadrilateral")
  {
  }

  lemma NDimsOptions()
    ensures NDims("2D") == "2" && NDims("3D") == "3"
  {
  }
}
