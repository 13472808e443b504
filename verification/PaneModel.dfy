/**
 A pane, the record it is stored as, and the two ways between them.
 */
module PaneModel {
  import opened Options
  import opened OllamaPullOutput

  /** The raw values of the pane types. */
  const PANE_TYPES := {
    "terminal", "analytics", "markdownPreview", "htmlPreview", "skillLibrary", "knowledgeBase", "modelManager",
    "scheduleManager", "browser", "diffViewer", "logViewer", "scratchpad", "savingsTest", "agentTimeline",
    "codeEditor", "dashboard", "sprintReview", "artifactGallery", "ollamaLauncher", "openAIServedRequests"
  }
  const TERMINAL := "terminal"
  const OLLAMA_LAUNCHER := "ollamaLauncher"
  const DEFAULT_MODEL_TAG := "llama3.1:8b"

  const MIN_FONT := 8.0
  const MAX_FONT := 24.0
  const DEFAULT_FONT := 12.0
  const FAMILIES := {"SF Mono", "Menlo", "Monaco", "Courier", "Courier New", "Andale Mono"}
  const DEFAULT_FAMILY := "SF Mono"

  datatype Features = Features(filter: bool, cache: bool, secrets: bool, indexer: bool, terse: bool)

  datatype Metrics = Metrics(rawBytes: int, filteredBytes: int, commands: int, secrets: int)

  datatype Pane = Pane(
    id: nat, title: string, paneType: string, features: Features, passthrough: bool, shellCommand: string,
    initialCommand: string, workingDirectory: string, previewFilePath: string, columnWidth: real,
    paneHeight: Option<real>, metrics: Metrics, fontSize: real, fontFamily: string, ollamaDefaultModel: string,
    forwardDevServerTelemetry: bool)

  /** The stored record; fields added by later versions may be missing. */
  datatype PersistedPane = PersistedPane(
    title: string, paneType: string, features: Features, shellCommand: string, initialCommand: string,
    workingDirectory: string, previewFilePath: string, columnWidth: real, paneHeight: Option<real>,
    rawBytes: Option<int>, filteredBytes: Option<int>, commands: Option<int>, secrets: Option<int>,
    fontSize: Option<real>, fontFamily: Option<string>, ollamaDefaultModel: Option<string>,
    forwardDevServerTelemetry: Option<bool>)

  function ClampFontSize(size: real): real {
    if size < MIN_FONT then MIN_FONT else if size > MAX_FONT then MAX_FONT else size
  }

  function ResolveFamily(family: string): string {
    if family in FAMILIES then family else DEFAULT_FAMILY
  }

  function ResolveModelTag(stored: Option<string>): string {
    if stored.Some? && IsValidModelTag(stored.value) then stored.value else DEFAULT_MODEL_TAG
  }

  function OrElse<T>(o: Option<T>, otherwise: T): T {
    if o.Some? then o.value else otherwise
  }

  function PersistPane(p: Pane): PersistedPane {
    PersistedPane(
      p.title, p.paneType, p.features, p.shellCommand, p.initialCommand, p.workingDirectory, p.previewFilePath,
      p.columnWidth, p.paneHeight, Some(p.metrics.rawBytes), Some(p.metrics.filteredBytes), Some(p.metrics.commands),
      Some(p.metrics.secrets), Some(p.fontSize), Some(p.fontFamily),
      if p.paneType == OLLAMA_LAUNCHER then Some(p.ollamaDefaultModel) else None, Some(p.forwardDevServerTelemetry))
  }

  function RestorePane(pp: PersistedPane, id: nat): Pane {
    var paneType := if pp.paneType in PANE_TYPES then pp.paneType else TERMINAL;
    Pane(
      id, pp.title, paneType, pp.features, false, pp.shellCommand, pp.initialCommand, pp.workingDirectory,
      pp.previewFilePath, pp.columnWidth, pp.paneHeight,
      Metrics(OrElse(pp.rawBytes, 0), OrElse(pp.filteredBytes, 0), OrElse(pp.commands, 0), OrElse(pp.secrets, 0)),
      if pp.fontSize.Some? then ClampFontSize(pp.fontSize.value) else DEFAULT_FONT,
      if pp.fontFamily.Some? then ResolveFamily(pp.fontFamily.value) else DEFAULT_FAMILY,
      if paneType == OLLAMA_LAUNCHER then ResolveModelTag(pp.ollamaDefaultModel) else DEFAULT_MODEL_TAG,
      OrElse(pp.forwardDevServerTelemetry, true))
  }

  /** What a restart keeps: everything in range, and nothing set that is not stored. */
  predicate Canonical(p: Pane) {
    && p.paneType in PANE_TYPES && !p.passthrough
    && MIN_FONT <= p.fontSize <= MAX_FONT && p.fontFamily in FAMILIES
    && (if p.paneType == OLLAMA_LAUNCHER
        then IsValidModelTag(p.ollamaDefaultModel) || p.ollamaDefaultModel == DEFAULT_MODEL_TAG
        else p.ollamaDefaultModel == DEFAULT_MODEL_TAG)
  }

  /** A pane comes back as it was, but for its identity, if and only if it is canonical. */
  lemma {:induction false} PaneRoundTripExactly(p: Pane, id: nat)
    ensures RestorePane(PersistPane(p), id) == p.(id := id) <==> Canonical(p)
  {
  }

  /** Whatever the record, the restored pane is canonical. */
  lemma {:induction false} RestoredIsCanonical(pp: PersistedPane, id: nat)
    ensures Canonical(RestorePane(pp, id))
  {
  }

  /** Storing what was restored is a normal form, whatever the identities. */
  lemma {:induction false} PaneNormalises(pp: PersistedPane, a: nat, b: nat)
    ensures PersistPane(RestorePane(PersistPane(RestorePane(pp, a)), b)) == PersistPane(RestorePane(pp, a))
  {
    RestoredIsCanonical(pp, a);
    PaneRoundTripExactly(RestorePane(pp, a), b);
  }

  // ---------------------------------------------------------------------------------------------------
  // Records
  // ---------------------------------------------------------------------------------------------------

  predicate IsPaneType(raw: string) {
    || raw == "terminal" || raw == "analytics" || raw == "markdownPreview" || raw == "htmlPreview"
    || raw == "skillLibrary" || raw == "knowledgeBase" || raw == "modelManager" || raw == "scheduleManager"
    || raw == "browser" || raw == "diffViewer" || raw == "logViewer" || raw == "scratchpad" || raw == "savingsTest"
    || raw == "agentTimeline" || raw == "codeEditor" || raw == "dashboard" || raw == "sprintReview"
    || raw == "artifactGallery" || raw == "ollamaLauncher" || raw == "openAIServedRequests"
  }

  predicate IsFamily(family: string) {
    || family == "SF Mono" || family == "Menlo" || family == "Monaco" || family == "Courier"
    || family == "Courier New" || family == "Andale Mono"
  }

  predicate IsModelTag(tag: string) {
    0 < |tag| <= 128 && forall c <- tag ::
      'a' <= c <= 'z' || 'A' <= c <= 'Z' || '0' <= c <= '9' || c == '.' || c == ':' || c == '_' || c == '-' || c == '/'
  }

  /** A stored value, or what the application of that version started with. */
  predicate Stored<T(==)>(value: T, stored: Option<T>, initial: T) {
    match stored
    case Some(v) => value == v
    case None => value == initial
  }

  /** The nearest size in the range of the font sizes. */
  predicate NearestSize(size: real, stored: real) {
    && 8.0 <= size <= 24.0
    && (size == stored || (stored < size && size == 8.0) || (size < stored && size == 24.0))
  }

  /** The fields that are kept as they are, and the type. */
  ghost predicate KeepsPlain(pp: PersistedPane, p: Pane) {
    && p.title == pp.title && p.features == pp.features && !p.passthrough
    && p.shellCommand == pp.shellCommand && p.initialCommand == pp.initialCommand
    && p.workingDirectory == pp.workingDirectory && p.previewFilePath == pp.previewFilePath
    && p.columnWidth == pp.columnWidth && p.paneHeight == pp.paneHeight
    && p.paneType == (if IsPaneType(pp.paneType) then pp.paneType else "terminal")
  }

  ghost predicate KeepsCounters(pp: PersistedPane, p: Pane) {
    && Stored(p.metrics.rawBytes, pp.rawBytes, 0) && Stored(p.metrics.filteredBytes, pp.filteredBytes, 0)
    && Stored(p.metrics.commands, pp.commands, 0) && Stored(p.metrics.secrets, pp.secrets, 0)
    && Stored(p.forwardDevServerTelemetry, pp.forwardDevServerTelemetry, true)
  }

  /** Values out of range become the nearest or the default one. */
  ghost predicate KeepsInRange(pp: PersistedPane, p: Pane) {
    && (if pp.fontSize.Some? then NearestSize(p.fontSize, pp.fontSize.value) else p.fontSize == 12.0)
    && p.fontFamily == (if pp.fontFamily.Some? && IsFamily(pp.fontFamily.value) then pp.fontFamily.value
                        else "SF Mono")
    && p.ollamaDefaultModel
       == (if pp.paneType == "ollamaLauncher" && pp.ollamaDefaultModel.Some?
              && IsModelTag(pp.ollamaDefaultModel.value)
           then pp.ollamaDefaultModel.value else "llama3.1:8b")
  }

  /**
   What a record is restored to, field by field: missing fields take the values of the version that lacked them, values
   out of range the nearest or the default one, and the rest is kept.
   */
  lemma {:induction false} FieldsRestored(pp: PersistedPane, id: nat)
    ensures var p := RestorePane(pp, id);
      p.id == id && KeepsPlain(pp, p) && KeepsCounters(pp, p) && KeepsInRange(pp, p)
  {
  }

  /** The record has every field of the present version, all in range, and a model exactly for a launcher. */
  ghost predicate Complete(pp: PersistedPane) {
    && IsPaneType(pp.paneType) && pp.rawBytes.Some? && pp.filteredBytes.Some? && pp.commands.Some? && pp.secrets.Some?
    && pp.fontSize.Some? && 8.0 <= pp.fontSize.value <= 24.0
    && pp.fontFamily.Some? && IsFamily(pp.fontFamily.value) && pp.forwardDevServerTelemetry.Some?
    && (if pp.paneType == "ollamaLauncher"
        then pp.ollamaDefaultModel.Some? && IsModelTag(pp.ollamaDefaultModel.value)
        else pp.ollamaDefaultModel == None)
  }

  /** A record is written back as it was read if and only if it is complete. */
  lemma {:induction false} RecordKeptExactly(pp: PersistedPane, id: nat)
    ensures PersistPane(RestorePane(pp, id)) == pp <==> Complete(pp)
  {
    FieldsRestored(pp, id);
    WrittenBack(pp, RestorePane(pp, id));
  }

  lemma {:induction false} WrittenBack(pp: PersistedPane, p: Pane)
    requires KeepsPlain(pp, p) && KeepsCounters(pp, p) && KeepsInRange(pp, p)
    ensures PersistPane(p) == pp <==> Complete(pp)
  {
  }
}
