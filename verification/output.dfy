/** The aggregate parser `Cp2kOutput` and its run-type gate (cp2kdata/output.py).

    The block parsers other than the coordinates extractor are outside this
    model, so they enter as function values of a `Collaborators` record, each a
    pure function of the document text. Reading
    the file, printing and exiting the process become values: the document is a
    parameter and an unsupported run type is a returned fault. */
module Output {
  import opened Wrappers
  import Coordinates

  /** `implemented_run_type_parsers` */
  const ImplementedRunTypes: seq<string> := ["ENERGY_FORCE", "ENERGY", "MD", "GEO_OPT"]

  datatype RunType = EnergyForce | Energy | MolecularDynamics | GeoOpt

  function RunTypeName(t: RunType): string {
    match t
    case EnergyForce => "ENERGY_FORCE"
    case Energy => "ENERGY"
    case MolecularDynamics => "MD"
    case GeoOpt => "GEO_OPT"
  }

  /** `check_run_type`: the run type is accepted exactly when it is one of the
      implemented ones; otherwise the caller gets the rejected name back. */
  function CheckRunType(runType: string): (r: Result<RunType, string>)
    ensures r.Ok? <==> runType in ImplementedRunTypes
    ensures r.Ok? ==> RunTypeName(r.value) == runType
    ensures r.Err? ==> r.error == runType
  {
    if runType == "ENERGY_FORCE" then Ok(EnergyForce)
    else if runType == "ENERGY" then Ok(Energy)
    else if runType == "MD" then Ok(MolecularDynamics)
    else if runType == "GEO_OPT" then Ok(GeoOpt)
    else Err(runType)
  }

  /** Every run type's name passes the gate as that run type. */
  lemma CheckRunTypeName(t: RunType)
    ensures CheckRunType(RunTypeName(t)) == Ok(t)
  {
  }

  datatype HeaderInfo = HeaderInfo(versionString: string)

  datatype GlobalInfo = GlobalInfo(runType: string)

  /** Results of collaborators whose content this model does not interpret. */
  datatype DftInfo = DftInfo(entries: seq<string>)

  datatype Blob = Blob(entries: seq<string>)

  /** One geometry-optimisation step as the plot helper reads it. */
  datatype GeoOptStep = GeoOptStep(step: int, maxStepSize: real, rmsStepSize: real,
                                   maxGradient: real, rmsGradient: real)

  /** The block parsers imported at cp2kdata/output.py:6-14, other than the
      coordinates extractor. */
  datatype Collaborators = Collaborators(
    parseHeader: string -> HeaderInfo,
    parseGlobal: string -> GlobalInfo,
    parseDft: string -> DftInfo,
    parseGeoOpt: string -> seq<GeoOptStep>,
    parseEnergiesList: string -> Blob,
    parseAtomicKinds: string -> seq<string>,
    parseAtomicForcesList: string -> Blob,
    parseMullikenPopList: (string, DftInfo) -> Blob,
    parseHirshfeldPopList: string -> Blob,
    parseDftPlusUOcc: string -> Blob)

  /** The parsers `__init__` calls, in call order. */
  datatype Stage = Header | Global | Dft | GeoOptStage | Energies | InitCoordinates
                 | AtomicKinds | Forces | Mulliken | Hirshfeld | DftPlusU

  /** The stages that read a data block rather than the run's metadata. */
  predicate IsBlockStage(s: Stage) {
    !(s == Header || s == Global || s == Dft)
  }

  datatype IndexFault = IndexOutOfBounds(index: int, size: nat)

  /** The five series `get_geo_opt_info_plot` draws. */
  datatype PlotSeries = PlotSeries(steps: seq<int>, maxStepSize: seq<real>, rmsStepSize: seq<real>,
                                   maxGradient: seq<real>, rmsGradient: seq<real>)

  /** numpy's reading of index `i` into an array of length `n`: negative indices
      count from the end; anything else out of range is an `IndexError`. */
  function NumpyIndex(i: int, n: nat): (r: Result<nat, IndexFault>)
    ensures r.Ok? <==> -(n as int) <= i < n
    ensures r.Ok? ==> r.value < n && (r.value == i || r.value == i + n)
  {
    if 0 <= i < n then Ok(i)
    else if -(n as int) <= i < 0 then Ok(i + n)
    else Err(IndexOutOfBounds(i, n))
  }

  /** The parsed record; it has no setters, so every getter returns what the
      constructor stored. */
  datatype Cp2kOutput = Cp2kOutput(
    outputFile: string,
    headerInfo: HeaderInfo,
    globalInfo: GlobalInfo,
    dftInfo: DftInfo,
    geoOptInfo: Option<seq<GeoOptStep>>,
    energiesList: Blob,
    initAtomicCoordinates: seq<Coordinates.Coord>,
    atomKindList: seq<nat>,
    chemicalSymbols: seq<string>,
    atomicKind: seq<string>,
    atomicForcesList: Blob,
    mullikenPopList: Blob,
    hirshfeldPopList: Blob,
    dftPlusUOcc: Blob)
  {
    function VersionString(): string {
      headerInfo.versionString
    }

    function RunTypeString(): string {
      globalInfo.runType
    }

    /** `self.atomic_kind[self.atom_kind_list - 1]`: the kind name of every atom,
        by numpy indexing with the 1-based kind numbers. A kind of 0 becomes
        index -1 and so names the last kind. */
    function ChemicalSymbolsFake(): (r: Result<seq<string>, IndexFault>)
      ensures r.Ok? <==> forall k :: 0 <= k < |atomKindList| ==> 1 - |atomicKind| <= atomKindList[k] <= |atomicKind|
      ensures r.Ok? ==> |r.value| == |atomKindList|
      ensures r.Ok? ==> forall k :: 0 <= k < |atomKindList| && atomKindList[k] >= 1 ==>
                          r.value[k] == atomicKind[atomKindList[k] - 1]
      ensures r.Ok? ==> forall k :: 0 <= k < |atomKindList| && atomKindList[k] == 0 ==>
                          r.value[k] == atomicKind[|atomicKind| - 1]
    {
      LookUpKinds(atomicKind, atomKindList)
    }

    /** The `[1:]` projections of `get_geo_opt_info_plot`; slicing `None` fails. */
    function GeoOptInfoPlot(): (r: Option<PlotSeries>)
      ensures r.Some? <==> geoOptInfo.Some?
      ensures r.Some? ==>
                var n := if |geoOptInfo.value| == 0 then 0 else |geoOptInfo.value| - 1;
                && |r.value.steps| == n && |r.value.maxStepSize| == n && |r.value.rmsStepSize| == n
                && |r.value.maxGradient| == n && |r.value.rmsGradient| == n
      ensures r.Some? ==> forall k :: 0 <= k < |r.value.steps| ==>
                var e := geoOptInfo.value[k + 1];
                && r.value.steps[k] == e.step
                && r.value.maxStepSize[k] == e.maxStepSize
                && r.value.rmsStepSize[k] == e.rmsStepSize
                && r.value.maxGradient[k] == e.maxGradient
                && r.value.rmsGradient[k] == e.rmsGradient
    {
      match geoOptInfo
      case None => None
      case Some(info) =>
        var tail := if |info| == 0 then [] else info[1..];
        Some(PlotSeries(
          seq(|tail|, k requires 0 <= k < |tail| => tail[k].step),
          seq(|tail|, k requires 0 <= k < |tail| => tail[k].maxStepSize),
          seq(|tail|, k requires 0 <= k < |tail| => tail[k].rmsStepSize),
          seq(|tail|, k requires 0 <= k < |tail| => tail[k].maxGradient),
          seq(|tail|, k requires 0 <= k < |tail| => tail[k].rmsGradient)))
    }
  }

  /** Element-wise `names[kinds - 1]` with numpy indexing. */
  function LookUpKinds(names: seq<string>, kinds: seq<nat>): (r: Result<seq<string>, IndexFault>)
    ensures r.Ok? <==> forall k :: 0 <= k < |kinds| ==> 1 - |names| <= kinds[k] <= |names|
    ensures r.Ok? ==> |r.value| == |kinds|
    ensures r.Ok? ==> forall k :: 0 <= k < |kinds| && kinds[k] >= 1 ==>
                        r.value[k] == names[kinds[k] - 1]
    ensures r.Ok? ==> forall k :: 0 <= k < |kinds| && kinds[k] == 0 ==>
                        r.value[k] == names[|names| - 1]
  {
    if kinds == [] then Ok([])
    else
      match NumpyIndex(kinds[0] as int - 1, |names|)
      case Err(e) => Err(e)
      case Ok(i) =>
        match LookUpKinds(names, kinds[1..])
        case Err(e) => Err(e)
        case Ok(rest) =>
          var r := [names[i]] + rest;
          assert forall k :: 1 <= k < |kinds| ==> kinds[k] == kinds[1..][k - 1] && r[k] == rest[k - 1];
          Ok(r)
  }

  datatype Fault = UnsupportedRunType(runType: string) | CoordinatesAbsent

  /** The outcome of `Cp2kOutput(output_file)` and the parsers it called. */
  datatype Construction = Construction(result: Result<Cp2kOutput, Fault>, calls: seq<Stage>)

  const MetadataStages: seq<Stage> := [Header, Global, Dft]

  const TrailingStages: seq<Stage> := [AtomicKinds, Forces, Mulliken, Hirshfeld, DftPlusU]

  /** The order in which `__init__` calls the parsers once the run type is
      accepted (cp2kdata/output.py:32-59): the three metadata parsers, the
      geometry-optimisation parser exactly for `GEO_OPT`, the energies parser,
      the coordinates extractor, and then, if the extractor's result could be
      unpacked, the five remaining block parsers. */
  predicate InCallOrder(calls: seq<Stage>, isGeoOpt: bool, completed: bool) {
    var k := |MetadataStages| + (if isGeoOpt then 1 else 0);
    && |calls| == k + 2 + (if completed then |TrailingStages| else 0)
    && calls[..|MetadataStages|] == MetadataStages
    && (isGeoOpt ==> calls[|MetadataStages|] == GeoOptStage)
    && calls[k..k + 2] == [Energies, InitCoordinates]
    && calls[k + 2..] == (if completed then TrailingStages else [])
  }

  /** The call order pins the calls down completely: two call sequences in
      that order, for the same run type and outcome, are equal. */
  lemma {:induction false} CallOrderUnique(a: seq<Stage>, b: seq<Stage>, isGeoOpt: bool, completed: bool)
    requires InCallOrder(a, isGeoOpt, completed) && InCallOrder(b, isGeoOpt, completed)
    ensures a == b
  {
    var k := |MetadataStages| + (if isGeoOpt then 1 else 0);
    assert a == a[..|MetadataStages|] + a[|MetadataStages|..k] + a[k..k + 2] + a[k + 2..];
    assert b == b[..|MetadataStages|] + b[|MetadataStages|..k] + b[k..k + 2] + b[k + 2..];
    if isGeoOpt {
      assert a[|MetadataStages|..k] == [GeoOptStage] == b[|MetadataStages|..k];
    }
  }

  /** `Cp2kOutput.__init__` on the text of the output file: the metadata
      parsers run first; an unsupported run type stops construction before any
      block parser runs; the geometry-optimisation parser runs only for
      `GEO_OPT`; unpacking the coordinates triple fails when the extractor
      returns `None`. */
  function Construct(text: string, c: Collaborators): (out: Construction)
    ensures var runType := c.parseGlobal(text).runType;
            runType !in ImplementedRunTypes ==>
              out.result == Err(UnsupportedRunType(runType)) && out.calls == MetadataStages
    ensures var runType := c.parseGlobal(text).runType;
            runType in ImplementedRunTypes ==>
              && InCallOrder(out.calls, runType == "GEO_OPT", out.result.Ok?)
              && (GeoOptStage in out.calls <==> runType == "GEO_OPT")
              && (out.result.Err? <==> Coordinates.ParseInitAtomicCoordinates(text).None?)
              && (out.result.Err? ==> out.result.error == CoordinatesAbsent)
    ensures out.result.Err? ==>
              out.result.error == CoordinatesAbsent || out.result.error == UnsupportedRunType(c.parseGlobal(text).runType)
    ensures out.result.Err? && out.result.error == CoordinatesAbsent ==>
              out.calls[|out.calls| - 1] == InitCoordinates
  {
    var global := c.parseGlobal(text);
    match CheckRunType(global.runType)
    case Err(_) => Construction(Err(UnsupportedRunType(global.runType)), MetadataStages)
    case Ok(_) => Assemble(text, c)
  }

  /** The part of `__init__` after the run-type gate has passed. */
  function Assemble(text: string, c: Collaborators): (out: Construction)
    ensures InCallOrder(out.calls, c.parseGlobal(text).runType == "GEO_OPT", out.result.Ok?)
    ensures InitCoordinates in out.calls
    ensures GeoOptStage in out.calls <==> c.parseGlobal(text).runType == "GEO_OPT"
    ensures out.result.Err? <==> Coordinates.ParseInitAtomicCoordinates(text).None?
    ensures out.result.Err? ==> out.result.error == CoordinatesAbsent && out.calls[|out.calls| - 1] == InitCoordinates
  {
    var header := c.parseHeader(text);
    var global := c.parseGlobal(text);
    var dft := c.parseDft(text);
    var isGeoOpt := global.runType == "GEO_OPT";
    var geoOptInfo := if isGeoOpt then Some(c.parseGeoOpt(text)) else None;
    var energies := c.parseEnergiesList(text);
    match Coordinates.ParseInitAtomicCoordinates(text)
    case None => Construction(Err(CoordinatesAbsent), Calls(isGeoOpt, false))
    case Some(block) =>
      Construction(
        Ok(Cp2kOutput(text, header, global, dft, geoOptInfo, energies,
                      block.coords, block.kinds, block.elements,
                      c.parseAtomicKinds(text), c.parseAtomicForcesList(text),
                      c.parseMullikenPopList(text, dft), c.parseHirshfeldPopList(text),
                      c.parseDftPlusUOcc(text))),
        Calls(isGeoOpt, true))
  }

  /** The parsers called after the gate, up to the coordinates extractor and,
      when `completed`, the remaining block parsers. */
  function Calls(isGeoOpt: bool, completed: bool): (calls: seq<Stage>)
    ensures InCallOrder(calls, isGeoOpt, completed)
    ensures InitCoordinates in calls
    ensures GeoOptStage in calls <==> isGeoOpt
    ensures !completed ==> calls[|calls| - 1] == InitCoordinates
  {
    var before := MetadataStages + (if isGeoOpt then [GeoOptStage] else []) + [Energies, InitCoordinates];
    var calls := before + (if completed then TrailingStages else []);
    assert calls[..|before|] == before;
    assert calls[|before| - 2] == Energies;
    assert GeoOptStage !in TrailingStages;
    calls
  }

  /** For an unsupported run type no block parser is called, so the outcome is
      the same whatever the block parsers would have returned. */
  lemma UnsupportedIgnoresBlockParsers(text: string, c: Collaborators, d: Collaborators)
    requires c.parseGlobal(text) == d.parseGlobal(text)
    requires c.parseGlobal(text).runType !in ImplementedRunTypes
    ensures Construct(text, c) == Construct(text, d)
    ensures forall i :: 0 <= i < |Construct(text, c).calls| ==> !IsBlockStage(Construct(text, c).calls[i])
  {
  }

  /** What each getter of a constructed object returns. */
  lemma ConstructedFields(text: string, c: Collaborators)
    requires Construct(text, c).result.Ok?
    ensures Coordinates.ParseInitAtomicCoordinates(text).Some?
    ensures var o := Construct(text, c).result.value;
            var block := Coordinates.ParseInitAtomicCoordinates(text).value;
            && o.outputFile == text
            && o.VersionString() == c.parseHeader(text).versionString
            && o.RunTypeString() == c.parseGlobal(text).runType
            && o.RunTypeString() in ImplementedRunTypes
            && o.dftInfo == c.parseDft(text)
            && o.geoOptInfo == (if o.RunTypeString() == "GEO_OPT" then Some(c.parseGeoOpt(text)) else None)
            && o.energiesList == c.parseEnergiesList(text)
            && o.initAtomicCoordinates == block.coords
            && o.atomKindList == block.kinds
            && o.chemicalSymbols == block.elements
            && o.atomicKind == c.parseAtomicKinds(text)
            && o.atomicForcesList == c.parseAtomicForcesList(text)
            && o.mullikenPopList == c.parseMullikenPopList(text, o.dftInfo)
            && o.hirshfeldPopList == c.parseHirshfeldPopList(text)
            && o.dftPlusUOcc == c.parseDftPlusUOcc(text)
  {
  }
}
