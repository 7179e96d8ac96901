/** The porch-conf text format: the line layout both save paths write, and the
    line-by-line decoder the loader drives. A file is its sequence of lines
    (without line terminators). */
module Codec {
  import opened Text
  import opened Records

  datatype Option<T> = None | Some(value: T)

  /** Line 1 of every file, checked verbatim by the loader: a signature and
      a warning, written as two pieces only so that its first character is
      visible to the verifier. */
  const Header: string := "PorchConfHeader@zionFisher" + " //Do not delete this line or you will not be able to open this file"

  function Repeat(ch: char, n: nat): string { if n == 0 then "" else [ch] + Repeat(ch, n - 1) }
  const RuleWidth: nat := 60
  const DashesBefore: nat := 27
  const DashesAfterInput: nat := 28
  const DashesAfterOutput: nat := 27
  const Rule: string := Repeat('=', RuleWidth)
  const InputDivider: string := Repeat('-', DashesBefore) + "input" + Repeat('-', DashesAfterInput)
  const OutputDivider: string := Repeat('-', DashesBefore) + "output" + Repeat('-', DashesAfterOutput)

  /** `std::setw` widths of the name/type column and of the value column. */
  const NameWidth: nat := 25
  const ValueWidth: nat := 15

  const DscSuffix: string := " | DSC"
  const NonDscSuffix: string := " | NonDSC"

  // ---------------------------------------------------------------------
  // Line prefixes and labels

  /** The numbered prefix of the line that carries a field. */
  function Prefix(f: Field): string {
    match f
    case Txvid => "4."
    case Hactive => "5."
    case Vactive => "6."
    case Htotal => "7."
    case Vtotal => "8."
    case AdjVactive => "9."
    case AdjHactive => "10."
    case Hfp => "11."
    case Hsync => "12."
    case Hbp => "13."
    case Fps => "15."
    case AdjHtotal => "16."
    case AdjHblank => "17."
    case MinimumHline => "18."
    case MinimumLaneRate => "19."
    case AdjHblankMinus40 => "20."
    case HblankMinus40 => "21."
  }

  /** The field a prefix selects, if any: the inverse of `Prefix`. */
  function FieldOfPrefix(p: string): (r: Option<Field>)
    ensures r.Some? ==> Prefix(r.value) == p
    ensures r.None? ==> forall f :: Prefix(f) != p
  {
    if p == "4." then Some(Txvid)
    else if p == "5." then Some(Hactive)
    else if p == "6." then Some(Vactive)
    else if p == "7." then Some(Htotal)
    else if p == "8." then Some(Vtotal)
    else if p == "9." then Some(AdjVactive)
    else if p == "10." then Some(AdjHactive)
    else if p == "11." then Some(Hfp)
    else if p == "12." then Some(Hsync)
    else if p == "13." then Some(Hbp)
    else if p == "15." then Some(Fps)
    else if p == "16." then Some(AdjHtotal)
    else if p == "17." then Some(AdjHblank)
    else if p == "18." then Some(MinimumHline)
    else if p == "19." then Some(MinimumLaneRate)
    else if p == "20." then Some(AdjHblankMinus40)
    else if p == "21." then Some(HblankMinus40)
    else None
  }

  /** The human-readable comment written after a field's value. */
  function Label(f: Field): string {
    match f
    case Txvid => "txvid"
    case Hactive => "hactive"
    case Vactive => "vactive"
    case Htotal => "htotal"
    case Vtotal => "vtotal"
    case AdjVactive => "adj_vactive"
    case AdjHactive => "adj_hactive"
    case Hfp => "HFP"
    case Hsync => "HSYNC"
    case Hbp => "HBP"
    case Fps => "帧率"
    case AdjHtotal => "adj_htotal"
    case AdjHblank => "adj_hblank"
    case MinimumHline => "进 LP 时最小 HLINE"
    case MinimumLaneRate => "切 LP mode, Lane 速率至少需要达到的值"
    case AdjHblankMinus40 => "adj_hblank - 40"
    case HblankMinus40 => "hblank - 40"
  }

  // ---------------------------------------------------------------------
  // Encoder

  /** A prefix and the blanks after it: `"4.  "` but `"10. "`, four columns. */
  function Lead(p: string): string {
    p + (if |p| == 2 then "  " else " ")
  }

  function KindWord(isDSC: bool): string {
    if isDSC then "DSC" else "NonDSC"
  }

  const RuleLine: string := Lead("0.") + Rule
  const InputDividerLine: string := Lead("3.") + InputDivider
  const OutputDividerLine: string := Lead("14.") + OutputDivider

  function TitleLine(title: string): string {
    Lead("1.") + Pad(title, NameWidth) + "Porch Name"
  }

  function KindLine(isDSC: bool): string {
    Lead("2.") + Pad(KindWord(isDSC), NameWidth) + "Porch Type"
  }

  function ValueLine(f: Field, v: int): string {
    Lead(Prefix(f)) + Pad(FormatInt(v), ValueWidth) + Label(f)
  }

  function ValueLines(fs: seq<Field>, c: Conf): (ls: seq<string>)
    ensures |ls| == |fs|
  {
    if fs == [] then [] else [ValueLine(fs[0], Get(c, fs[0]))] + ValueLines(fs[1..], c)
  }

  /** One record's block: lines `0.` to `19.`, and `20.`/`21.` for DSC. The
      `1.` line carries `title`, which the two save paths choose differently. */
  function BlockLines(title: string, c: Conf): (ls: seq<string>)
    ensures |ls| == if c.isDSC then 22 else 20
  {
    assert |InputFields| == 10;
    [RuleLine] + ([TitleLine(title)] + ([KindLine(c.isDSC)] + ([InputDividerLine]
    + (ValueLines(InputFields, c)
    + ([OutputDividerLine]
    + ValueLines(OutputFields(c.isDSC), c))))))
  }

  /** The title the full rewrite writes: the name with its mode appended. */
  function FullName(c: Conf): string {
    c.name + (if c.isDSC then DscSuffix else NonDscSuffix)
  }

  function EncodeRecords(s: seq<Conf>): seq<string> {
    if s == [] then [] else BlockLines(FullName(s[0]), s[0]) + EncodeRecords(s[1..])
  }

  /** The whole file as the full rewrite produces it. */
  function EncodeFile(s: seq<Conf>): (file: seq<string>)
    ensures file != [] && file[0] == Header
  {
    [Header] + EncodeRecords(s)
  }

  // ---------------------------------------------------------------------
  // Decoder

  datatype Step = Accept(store: seq<Conf>) | Reject | NoRecord

  /** The first word of a line; an empty or blank line has the empty word. */
  function FirstWord(ws: seq<string>): string {
    if ws == [] then "" else ws[0]
  }

  function RestWords(ws: seq<string>): seq<string> {
    if ws == [] then [] else ws[1..]
  }

  /** Name on a `1.` line: the words up to the first standalone `|`, glued
      together without the blanks between them. */
  function NameOf(ws: seq<string>): string {
    if ws == [] || ws[0] == "|" then "" else ws[0] + NameOf(ws[1..])
  }

  /** The value after a field prefix; a line with nothing after the prefix
      reads as 0. */
  function ValueOf(ws: seq<string>): int {
    if ws == [] then 0 else ParseNumber(ws[0])
  }

  function Last(store: seq<Conf>): Conf
    requires store != []
  {
    store[|store| - 1]
  }

  /** The store with its last record replaced. */
  function UpdateLast(store: seq<Conf>, c: Conf): (r: seq<Conf>)
    requires store != []
    ensures |r| == |store| && r[|store| - 1] == c
    ensures forall i :: 0 <= i < |store| - 1 ==> r[i] == store[i]
  {
    store[..|store| - 1] + [c]
  }

  /** Prefixes that edit the last record. */
  predicate EditsRecord(p: string) {
    p == "1." || p == "2." || FieldOfPrefix(p).Some?
  }

  predicate KnownPrefix(p: string) {
    p == "0." || p == "3." || p == "14." || EditsRecord(p)
  }

  /** One line of the body, applied to the records built so far. `NoRecord`
      is a field line arriving before any `0.` line, where the program reads
      the last element of an empty vector. */
  function HandleLine(store: seq<Conf>, line: string): (r: Step)
    ensures r.Reject? <==> !KnownPrefix(FirstWord(Words(line)))
    ensures r.NoRecord? <==> store == [] && EditsRecord(FirstWord(Words(line)))
    ensures r.Accept? ==> |r.store| == |store| + (if FirstWord(Words(line)) == "0." then 1 else 0)
    ensures r.Accept? && FirstWord(Words(line)) == "0." ==> r.store == store + [DefaultConf]
    ensures r.Accept? ==> forall i :: 0 <= i < |store| - 1 ==> r.store[i] == store[i]
    ensures r.Accept? && !EditsRecord(FirstWord(Words(line))) ==> r.store[..|store|] == store
  {
    var ws := Words(line);
    var p := FirstWord(ws);
    var rest := RestWords(ws);
    if p == "0." then Accept(store + [DefaultConf])
    else if p == "3." || p == "14." then Accept(store)
    else if p == "1." then
      if store == [] then NoRecord
      else Accept(UpdateLast(store, Last(store).(name := NameOf(rest))))
    else if p == "2." then
      if store == [] then NoRecord
      else Accept(UpdateLast(store, Last(store).(isDSC := rest != [] && rest[0] == "DSC")))
    else
      match FieldOfPrefix(p)
      case None => Reject
      case Some(f) =>
        if store == [] then NoRecord
        else Accept(UpdateLast(store, Set(Last(store), f, ValueOf(rest))))
  }

  datatype Status = Ok | CannotOpen | BadHeader | BadFormat | FieldBeforeRecord

  /** The outcome of a load: its status and the records built, which are kept
      even when a line is rejected. */
  datatype Loaded = Loaded(status: Status, store: seq<Conf>)

  /** Left fold of `HandleLine` over the body, stopping at the first line it
      does not accept. */
  function Scan(lines: seq<string>, store: seq<Conf>): (r: Loaded)
    ensures r.status == Ok || r.status == BadFormat || r.status == FieldBeforeRecord
    ensures |r.store| >= |store|
    ensures forall i :: 0 <= i < |store| - 1 ==> r.store[i] == store[i]
    decreases |lines|
  {
    if lines == [] then Loaded(Ok, store)
    else
      match HandleLine(store, lines[0])
      case Accept(s) => Scan(lines[1..], s)
      case Reject => Loaded(BadFormat, store)
      case NoRecord => Loaded(FieldBeforeRecord, store)
  }

  /** `LoadPorchConfFile`: the store is cleared first; `readable` says whether
      the file could be opened for reading. */
  function Load(readable: bool, file: seq<string>): (r: Loaded)
    ensures r.status == Ok ==> readable && file != [] && file[0] == Header
    ensures r.status == CannotOpen <==> !readable
    ensures r.status == BadHeader <==> readable && (file == [] || file[0] != Header)
    ensures r.status == CannotOpen || r.status == BadHeader ==> r.store == []
  {
    if !readable then Loaded(CannotOpen, [])
    else if file == [] || file[0] != Header then Loaded(BadHeader, [])
    else Scan(file[1..], [])
  }
}
