/** Importer selection of grslicer/importers/__init__.py: the importers are
    asked in a fixed order whether they accept the contents, and the first
    one that does is constructed and run.  Opening and reading the file and
    centring the result on the print plate are not part of this model. */
module Importers {
  import opened Outcomes
  import opened ByteText
  import opened Stl

  datatype ImporterKind = StlAsciiImporter | StlBinImporter

  /** `ALL_IMPORTERS`, in the order they are consulted. */
  const AllImporters: seq<ImporterKind> := [StlAsciiImporter, StlBinImporter]

  /** What an importer needs besides the contents: the `roundOffError`
      setting and the two abstract float decoders. */
  datatype ImportConfig = ImportConfig(tolerance: real, parse: FloatParser, decode: FloatDecoder)

  /** `importer_cls.can_import(contents)`. */
  predicate CanImport(k: ImporterKind, c: Bytes) {
    match k
    case StlAsciiImporter => CanImportAscii(c)
    case StlBinImporter => CanImportBinary(c)
  }

  /** `importer_cls(contents, settings).import_contents()`.  An importer
      returns the merger's topology, never None, so the only failure is an
      exception raised while importing. */
  function RunImporter(k: ImporterKind, c: Bytes, cfg: ImportConfig): (r: Result<MergerLog, ImportError>)
    ensures r != Err(NotRecognized)
    ensures r.Ok? ==> AddsThenFinalize(r.value.calls) && r.value.tolerance == cfg.tolerance
  {
    match k
    case StlAsciiImporter => AsciiImport(c, cfg.tolerance, cfg.parse)
    case StlBinImporter => Ok(BinaryImport(c, cfg.tolerance, cfg.decode))
  }

  /** The position of the first importer that accepts the contents, if any. */
  function FirstAccepting(importers: seq<ImporterKind>, c: Bytes): (r: Option<nat>)
    ensures r.None? <==> forall i | 0 <= i < |importers| :: !CanImport(importers[i], c)
    ensures r.Some? ==> && r.value < |importers| && CanImport(importers[r.value], c)
                        && forall j | 0 <= j < r.value :: !CanImport(importers[j], c)
    decreases |importers|
  {
    if |importers| == 0 then None
    else if CanImport(importers[0], c) then Some(0)
    else
      var r := FirstAccepting(importers[1..], c);
      assert forall i | 1 <= i < |importers| :: importers[i] == importers[1..][i - 1];
      if r.None? then None else Some(r.value + 1)
  }

  /** `import_file` on contents: the first accepting importer is run and the
      later ones are not consulted; when none accepts,
      `SlicerImportException` is raised and nothing is returned. */
  function ImportContents(importers: seq<ImporterKind>, c: Bytes, cfg: ImportConfig): (r: Result<MergerLog, ImportError>)
    ensures r == Err(NotRecognized) <==> forall i | 0 <= i < |importers| :: !CanImport(importers[i], c)
    ensures forall i | 0 <= i < |importers| && CanImport(importers[i], c) ::
              (forall j | 0 <= j < i :: !CanImport(importers[j], c)) ==> r == RunImporter(importers[i], c, cfg)
  {
    match FirstAccepting(importers, c)
    case None => Err(NotRecognized)
    case Some(k) =>
      assert forall i | 0 <= i < |importers| && CanImport(importers[i], c) ::
               (forall j | 0 <= j < i :: !CanImport(importers[j], c)) ==> i == k;
      RunImporter(importers[k], c, cfg)
  }

  /** With the two STL importers some importer always accepts, so the
      `SlicerImportException` path is never taken: text with all three
      keywords goes to the ASCII importer, everything else to the binary one. */
  lemma StlImportNeverUnrecognised(c: Bytes, cfg: ImportConfig)
    ensures ImportContents(AllImporters, c, cfg) != Err(NotRecognized)
    ensures CanImportAscii(c) ==> ImportContents(AllImporters, c, cfg) == AsciiImport(c, cfg.tolerance, cfg.parse)
    ensures !CanImportAscii(c) ==> ImportContents(AllImporters, c, cfg) == Ok(BinaryImport(c, cfg.tolerance, cfg.decode))
  {
    if CanImportAscii(c) {
      assert CanImport(AllImporters[0], c);
    } else {
      assert CanImport(AllImporters[1], c);
    }
  }

  /** The selection loop of `import_file`, with its `break` and the final
      `result is None` test. */
  method ImportFile(importers: seq<ImporterKind>, c: Bytes, cfg: ImportConfig) returns (r: Result<MergerLog, ImportError>)
    ensures r == ImportContents(importers, c, cfg)
  {
    var result: Option<Result<MergerLog, ImportError>> := None;
    var i := 0;
    while i < |importers|
      invariant 0 <= i <= |importers|
      invariant result.None? ==> forall j | 0 <= j < i :: !CanImport(importers[j], c)
      invariant result.Some? ==> result.value == ImportContents(importers, c, cfg)
    {
      if CanImport(importers[i], c) {
        var run: Result<MergerLog, ImportError>;
        match importers[i] {
          case StlAsciiImporter =>
            run := ImportAsciiLoop(c, cfg.tolerance, cfg.parse);
          case StlBinImporter =>
            var log := ImportBinaryLoop(c, cfg.tolerance, cfg.decode);
            run := Ok(log);
        }
        assert run == RunImporter(importers[i], c, cfg);
        result := Some(run);
        break;
      }
      i := i + 1;
    }
    if result.None? {
      r := Err(NotRecognized);
    } else {
      r := result.value;
    }
  }
}
