/** What the porch-conf decoder makes of the lines the encoder writes, and of
    arbitrary files: per-line effects, the fold's early exit, record counting,
    name recovery and the decode-after-encode round trip. */
module CodecLaws {
  import opened Text
  import opened Records
  import opened Codec

  // ---------------------------------------------------------------------
  // Names

  /** A name that survives the `1.` line unchanged: one word (or empty) that
      is not the separator itself. */
  predicate NameOk(n: string) {
    NoSpace(n) && n != "|"
  }

  predicate NamesOk(s: seq<Conf>) {
    forall i :: 0 <= i < |s| ==> NameOk(s[i].name)
  }

  /** The name the decoder recovers from a `1.` line carrying `title`. */
  function TitleName(title: string): string {
    NameOf(Words(Pad(title, NameWidth) + "Porch Name"))
  }

  /** The name stops at the first standalone `|`: nothing after it counts. */
  lemma {:induction false} NameOfStopsAtBar(a: seq<string>, b: seq<string>)
    ensures NameOf(a + ["|"] + b) == NameOf(a)
    decreases |a|
  {
    if a == [] {
      assert a + ["|"] + b == ["|"] + b;
    } else {
      assert (a + ["|"] + b)[0] == a[0];
      assert (a + ["|"] + b)[1..] == a[1..] + ["|"] + b;
      NameOfStopsAtBar(a[1..], b);
    }
  }

  /** Every name the decoder produces is itself a name that survives. */
  lemma {:induction false} NameOfIsNameOk(ws: seq<string>)
    requires forall i :: 0 <= i < |ws| ==> IsWord(ws[i])
    ensures NameOk(NameOf(ws))
    decreases |ws|
  {
    if ws != [] && ws[0] != "|" {
      NameOfIsNameOk(ws[1..]);
      assert NameOf(ws) == ws[0] + NameOf(ws[1..]);
    }
  }

  lemma NameOfNameOk(n: string)
    requires NameOk(n)
    ensures NameOf(Words(n)) == n
  {
    if n != "" {
      WordsOfWord(n);
      assert NameOf([n]) == n + NameOf([]);
    }
  }

  /** Whatever follows a standalone `|` is not part of the name. */
  lemma NameBeforeBar(x: string, rest: string)
    ensures NameOf(Words(x + " | " + rest)) == NameOf(Words(x))
  {
    var after := "|" + " " + rest;
    assert x + " | " + rest == x + [' '] + after;
    WordsSplit(x, ' ', after);
    WordsCons("|", rest);
    assert Words(x + " | " + rest) == Words(x) + ["|"] + Words(rest);
    NameOfStopsAtBar(Words(x), Words(rest));
  }

  /** A title of the form `x | kind`, as both save paths write it, decodes
      to the words of `x` up to any standalone `|`, glued together. */
  lemma TitleNameOfSuffixed(x: string, kind: string)
    ensures TitleName(x + " | " + kind) == NameOf(Words(x))
  {
    var title := x + " | " + kind;
    var k: nat := if |title| < NameWidth then NameWidth - |title| else 0;
    var tail := Spaces(k) + "Porch Name";
    assert Pad(title, NameWidth) == title + Spaces(k);
    assert Pad(title, NameWidth) + "Porch Name" == x + " | " + (kind + tail);
    NameBeforeBar(x, kind + tail);
  }

  lemma SuffixesAreSeparated()
    ensures DscSuffix == " | " + KindWord(true)
    ensures NonDscSuffix == " | " + KindWord(false)
  {
  }

  /** The full rewrite's title gives back the record's name. */
  lemma TitleNameOfFullName(c: Conf)
    requires NameOk(c.name)
    ensures TitleName(FullName(c)) == c.name
  {
    SuffixesAreSeparated();
    var k := KindWord(c.isDSC);
    assert FullName(c) == c.name + " | " + k;
    TitleNameOfSuffixed(c.name, k);
    NameOfNameOk(c.name);
  }

  // ---------------------------------------------------------------------
  // Single lines

  lemma WordsAfterLead(p: string, body: string)
    requires IsWord(p)
    ensures Words(Lead(p) + body) == [p] + Words(body)
  {
    if |p| == 2 {
      assert Lead(p) + body == p + " " + (" " + body);
      WordsCons(p, " " + body);
      var t := " " + body;
      assert t[0] == ' ' && t[1..] == body;
    } else {
      assert Lead(p) + body == p + " " + body;
      WordsCons(p, body);
    }
  }

  /** `FieldOfPrefix` undoes `Prefix`. */
  lemma PrefixInverse(f: Field)
    ensures FieldOfPrefix(Prefix(f)) == Some(f)
  {
    match f
    case Txvid => case Hactive => case Vactive => case Htotal => case Vtotal =>
    case AdjVactive => case AdjHactive => case Hfp => case Hsync => case Hbp =>
    case Fps => case AdjHtotal => case AdjHblank => case MinimumHline =>
    case MinimumLaneRate => case AdjHblankMinus40 => case HblankMinus40 =>
  }

  lemma PrefixFacts(f: Field)
    ensures IsWord(Prefix(f))
    ensures FieldOfPrefix(Prefix(f)) == Some(f)
    ensures Prefix(f) != "0." && Prefix(f) != "1." && Prefix(f) != "2."
    ensures Prefix(f) != "3." && Prefix(f) != "14."
  {
    PrefixInverse(f);
  }

  lemma LabelFacts(f: Field)
    ensures Label(f) != [] && !IsDigit(Label(f)[0])
  {
  }

  /** The words of a line written as a prefix, its blanks and a body. */
  lemma LeadLineWords(p: string, body: string)
    requires IsWord(p)
    ensures FirstWord(Words(Lead(p) + body)) == p
    ensures RestWords(Words(Lead(p) + body)) == Words(body)
  {
    WordsAfterLead(p, body);
  }

  lemma RuleLineStartsRecord(store: seq<Conf>)
    ensures HandleLine(store, RuleLine) == Accept(store + [DefaultConf])
  {
    LeadLineWords("0.", Rule);
  }

  lemma SkippedLine(store: seq<Conf>, line: string)
    requires FirstWord(Words(line)) == "3." || FirstWord(Words(line)) == "14."
    ensures HandleLine(store, line) == Accept(store)
  {
  }

  lemma DividerLinesSkipped(store: seq<Conf>)
    ensures HandleLine(store, InputDividerLine) == Accept(store)
    ensures HandleLine(store, OutputDividerLine) == Accept(store)
  {
    LeadLineWords("3.", InputDivider);
    SkippedLine(store, InputDividerLine);
    LeadLineWords("14.", OutputDivider);
    SkippedLine(store, OutputDividerLine);
  }

  lemma TitleLineSetsName(store: seq<Conf>, title: string)
    requires store != []
    ensures HandleLine(store, TitleLine(title))
         == Accept(UpdateLast(store, Last(store).(name := TitleName(title))))
  {
    WordsAfterLead("1.", Pad(title, NameWidth) + "Porch Name");
    assert TitleLine(title) == Lead("1.") + (Pad(title, NameWidth) + "Porch Name");
  }

  /** A word padded to a column and followed by more text is read as that
      word, then the words of the text. */
  lemma PaddedWord(w: string, width: nat, tail: string)
    requires IsWord(w) && |w| < width
    ensures Words(Pad(w, width) + tail) == [w] + Words(tail)
  {
    var k: nat := width - |w| - 1;
    assert Spaces(k + 1) == " " + Spaces(k);
    assert Pad(w, width) + tail == w + " " + (Spaces(k) + tail);
    WordsCons(w, Spaces(k) + tail);
    WordsOfSpaces(k, tail);
  }

  lemma KindLineWords(isDSC: bool)
    ensures FirstWord(Words(KindLine(isDSC))) == "2."
    ensures RestWords(Words(KindLine(isDSC))) == [KindWord(isDSC)] + Words("Porch Type")
  {
    var w := KindWord(isDSC);
    var body := Pad(w, NameWidth) + "Porch Type";
    assert KindLine(isDSC) == Lead("2.") + body;
    WordsAfterLead("2.", body);
    PaddedWord(w, NameWidth, "Porch Type");
  }

  lemma KindLineSetsMode(store: seq<Conf>, isDSC: bool)
    requires store != []
    ensures HandleLine(store, KindLine(isDSC))
         == Accept(UpdateLast(store, Last(store).(isDSC := isDSC)))
  {
    KindLineWords(isDSC);
  }

  /** What follows a formatted value never extends its digits: either
      blanks, or a comment that does not start with a digit. */
  lemma AfterValueNoDigit(k: nat, comment: string)
    requires comment != [] && !IsDigit(comment[0])
    ensures var r := Spaces(k) + comment;
            TokenLen(r) == 0 || !IsDigit(r[..TokenLen(r)][0])
  {
    var r := Spaces(k) + comment;
    if k == 0 {
      assert r == comment;
    }
  }

  /** A formatted value glued to text that does not carry on its digits is
      read as one token that parses back to the value. */
  lemma GluedValueParses(v: int, r: string)
    requires TokenLen(r) == 0 || !IsDigit(r[..TokenLen(r)][0])
    ensures Words(FormatInt(v) + r) != []
    ensures ParseNumber(Words(FormatInt(v) + r)[0]) == v
  {
    WordsGlued(FormatInt(v), r);
    ParseFormat(v, r[..TokenLen(r)]);
  }

  /** The columns of a value line: prefix and blanks, the value, blanks up to
      the value column's width, the comment. */
  lemma ValueLineShape(f: Field, v: int)
    ensures var x := FormatInt(v);
            var k: nat := if |x| < ValueWidth then ValueWidth - |x| else 0;
            ValueLine(f, v) == Lead(Prefix(f)) + (x + (Spaces(k) + Label(f)))
  {
    PaddedColumn(Lead(Prefix(f)), FormatInt(v), ValueWidth, Label(f));
  }

  lemma PaddedColumn(before: string, x: string, width: nat, after: string)
    ensures var k: nat := if |x| < width then width - |x| else 0;
            before + Pad(x, width) + after == before + (x + (Spaces(k) + after))
  {
    var k: nat := if |x| < width then width - |x| else 0;
    assert Pad(x, width) == x + Spaces(k);
  }

  /** A value line reads as its prefix followed by a token that parses back
      to the value. */
  lemma ValueLineWords(f: Field, v: int)
    ensures FirstWord(Words(ValueLine(f, v))) == Prefix(f)
    ensures RestWords(Words(ValueLine(f, v))) != []
    ensures ValueOf(RestWords(Words(ValueLine(f, v)))) == v
  {
    var x := FormatInt(v);
    var k: nat := if |x| < ValueWidth then ValueWidth - |x| else 0;
    var r := Spaces(k) + Label(f);
    ValueLineShape(f, v);
    PrefixFacts(f);
    WordsAfterLead(Prefix(f), x + r);
    LabelFacts(f);
    AfterValueNoDigit(k, Label(f));
    GluedValueParses(v, r);
  }

  lemma ValueLineSetsField(store: seq<Conf>, f: Field, v: int)
    requires store != []
    ensures HandleLine(store, ValueLine(f, v)) == Accept(UpdateLast(store, Set(Last(store), f, v)))
  {
    PrefixFacts(f);
    ValueLineWords(f, v);
  }

  // ---------------------------------------------------------------------
  // The fold

  /** Scanning two pieces is scanning the first and, if it got through,
      scanning the second from where it left off. */
  lemma {:induction false} ScanAppend(a: seq<string>, b: seq<string>, store: seq<Conf>)
    ensures Scan(a + b, store)
         == (var r := Scan(a, store); if r.status == Ok then Scan(b, r.store) else r)
    decreases |a|
  {
    if a == [] {
      assert a + b == b;
    } else {
      assert (a + b)[0] == a[0];
      assert (a + b)[1..] == a[1..] + b;
      match HandleLine(store, a[0])
      case Accept(s) => ScanAppend(a[1..], b, s);
      case Reject =>
      case NoRecord =>
    }
  }

  /** A rejected line ends the load: the records built before it are kept and
      no line after it is applied. */
  lemma ScanStopsAtRejected(a: seq<string>, x: string, rest: seq<string>, store: seq<Conf>)
    requires Scan(a, store).status == Ok
    requires !HandleLine(Scan(a, store).store, x).Accept?
    ensures Scan(a + [x] + rest, store).status != Ok
    ensures Scan(a + [x] + rest, store).store == Scan(a, store).store
  {
    ScanAppend(a, [x] + rest, store);
    assert a + [x] + rest == a + ([x] + rest);
    assert ([x] + rest)[0] == x;
  }

  /** Lines whose first word is `0.`. */
  function CountStarts(lines: seq<string>): nat {
    if lines == [] then 0
    else (if FirstWord(Words(lines[0])) == "0." then 1 else 0) + CountStarts(lines[1..])
  }

  /** A successful scan adds exactly one record per `0.` line. */
  lemma {:induction false} ScanCountsRecords(lines: seq<string>, store: seq<Conf>)
    requires Scan(lines, store).status == Ok
    ensures |Scan(lines, store).store| == |store| + CountStarts(lines)
    decreases |lines|
  {
    if lines != [] {
      var s := HandleLine(store, lines[0]).store;
      ScanCountsRecords(lines[1..], s);
    }
  }

  /** Scanning keeps every name in the store one that survives a rewrite. */
  lemma {:induction false} ScanKeepsNamesOk(lines: seq<string>, store: seq<Conf>)
    requires NamesOk(store)
    ensures NamesOk(Scan(lines, store).store)
    decreases |lines|
  {
    if lines != [] {
      var ws := Words(lines[0]);
      if FirstWord(ws) == "1." && store != [] {
        NameOfIsNameOk(RestWords(ws));
      }
      match HandleLine(store, lines[0])
      case Accept(s) =>
        assert NamesOk(s) by {
          forall i | 0 <= i < |s| ensures NameOk(s[i].name) {
            if i >= |store| - 1 && FirstWord(ws) != "0." {
              assert s[i] == Last(s);
            }
          }
        }
        ScanKeepsNamesOk(lines[1..], s);
      case Reject =>
      case NoRecord =>
    }
  }

  lemma LoadedNamesOk(readable: bool, file: seq<string>)
    ensures NamesOk(Load(readable, file).store)
  {
    if readable && file != [] && file[0] == Header {
      ScanKeepsNamesOk(file[1..], []);
    }
  }

  lemma SplitAt(file: seq<string>, k: nat)
    requires 1 <= k < |file|
    ensures file[1..] == file[1..k] + [file[k]] + file[k + 1..]
  {
  }

  /** `LoadPorchConfFile` stops at the first body line it rejects: the result
      is what the lines before it built, whatever follows. */
  lemma LoadStopsAtRejected(file: seq<string>, k: nat)
    requires 1 <= k < |file| && file[0] == Header
    requires Scan(file[1..k], []).status == Ok
    requires !HandleLine(Scan(file[1..k], []).store, file[k]).Accept?
    ensures Load(true, file).status != Ok
    ensures Load(true, file).store == Scan(file[1..k], []).store
  {
    SplitAt(file, k);
    ScanStopsAtRejected(file[1..k], file[k], file[k + 1..], []);
  }

  // ---------------------------------------------------------------------
  // Round trip

  lemma {:induction false} ScanValues(fs: seq<Field>, c: Conf, store: seq<Conf>)
    requires store != []
    ensures Scan(ValueLines(fs, c), store)
         == Loaded(Ok, UpdateLast(store, CopyFields(Last(store), fs, c)))
    decreases |fs|
  {
    if fs == [] {
      assert UpdateLast(store, Last(store)) == store;
    } else {
      var s1 := UpdateLast(store, Set(Last(store), fs[0], Get(c, fs[0])));
      ValueLineSetsField(store, fs[0], Get(c, fs[0]));
      ScanValues(fs[1..], c, s1);
      assert UpdateLast(s1, CopyFields(Last(s1), fs[1..], c))
          == UpdateLast(store, CopyFields(Last(store), fs, c));
    }
  }

  lemma ScanFirstLine(x: string, rest: seq<string>, store: seq<Conf>, next: seq<Conf>)
    requires HandleLine(store, x) == Accept(next)
    ensures Scan([x] + rest, store) == Scan(rest, next)
  {
    assert ([x] + rest)[0] == x;
    assert ([x] + rest)[1..] == rest;
  }

  lemma ScanValuesThen(fs: seq<Field>, c: Conf, rest: seq<string>, store: seq<Conf>)
    requires store != []
    ensures Scan(ValueLines(fs, c) + rest, store)
         == Scan(rest, UpdateLast(store, CopyFields(Last(store), fs, c)))
  {
    ScanAppend(ValueLines(fs, c), rest, store);
    ScanValues(fs, c, store);
  }

  /** The record a block builds from the default one. */
  lemma BlockRecord(title: string, c: Conf)
    ensures CopyFields(CopyFields(DefaultConf.(name := TitleName(title), isDSC := c.isDSC), InputFields, c),
                       OutputFields(c.isDSC), c)
         == Canonical(c).(name := TitleName(title))
  {
    CopyInputsOutputs(DefaultConf.(name := TitleName(title), isDSC := c.isDSC), c);
  }

  /** One block decodes to one record: the canonical form of `c` under the
      name its title yields. */
  lemma ScanBlock(title: string, c: Conf, store: seq<Conf>)
    ensures Scan(BlockLines(title, c), store)
         == Loaded(Ok, store + [Canonical(c).(name := TitleName(title))])
  {
    var inputs := ValueLines(InputFields, c);
    var outputs := ValueLines(OutputFields(c.isDSC), c);
    var tail4 := inputs + ([OutputDividerLine] + outputs);
    var tail3 := [InputDividerLine] + tail4;
    var tail2 := [KindLine(c.isDSC)] + tail3;
    var tail1 := [TitleLine(title)] + tail2;

    var d1 := DefaultConf.(name := TitleName(title));
    var d2 := d1.(isDSC := c.isDSC);
    RuleLineStartsRecord(store);
    ScanFirstLine(RuleLine, tail1, store, store + [DefaultConf]);
    TitleLineSetsName(store + [DefaultConf], title);
    assert UpdateLast(store + [DefaultConf], DefaultConf.(name := TitleName(title))) == store + [d1];
    ScanFirstLine(TitleLine(title), tail2, store + [DefaultConf], store + [d1]);
    KindLineSetsMode(store + [d1], c.isDSC);
    assert UpdateLast(store + [d1], d1.(isDSC := c.isDSC)) == store + [d2];
    ScanFirstLine(KindLine(c.isDSC), tail3, store + [d1], store + [d2]);
    DividerLinesSkipped(store + [d2]);
    ScanFirstLine(InputDividerLine, tail4, store + [d2], store + [d2]);

    var d3 := CopyFields(d2, InputFields, c);
    ScanValuesThen(InputFields, c, [OutputDividerLine] + outputs, store + [d2]);
    assert UpdateLast(store + [d2], d3) == store + [d3];
    DividerLinesSkipped(store + [d3]);
    ScanFirstLine(OutputDividerLine, outputs, store + [d3], store + [d3]);
    var d4 := CopyFields(d3, OutputFields(c.isDSC), c);
    ScanValues(OutputFields(c.isDSC), c, store + [d3]);
    assert UpdateLast(store + [d3], d4) == store + [d4];
    BlockRecord(title, c);
  }

  /** A record's block in the full rewrite decodes to the record itself, in
      canonical form, and the scan carries on after it. */
  lemma ScanFullBlock(c: Conf, rest: seq<string>, store: seq<Conf>)
    requires NameOk(c.name)
    ensures Scan(BlockLines(FullName(c), c) + rest, store) == Scan(rest, store + [Canonical(c)])
  {
    ScanBlock(FullName(c), c, store);
    TitleNameOfFullName(c);
    assert Canonical(c).(name := TitleName(FullName(c))) == Canonical(c);
    ScanAppend(BlockLines(FullName(c), c), rest, store);
  }

  lemma {:induction false} ScanRecords(t: seq<Conf>, store: seq<Conf>)
    requires NamesOk(t)
    ensures Scan(EncodeRecords(t), store) == Loaded(Ok, store + CanonicalAll(t))
    decreases |t|
  {
    if t == [] {
      assert store + CanonicalAll(t) == store;
    } else {
      NamesOkTail(t);
      ScanFullBlock(t[0], EncodeRecords(t[1..]), store);
      ScanRecords(t[1..], store + [Canonical(t[0])]);
      CanonicalAllCons(store, t);
    }
  }

  lemma NamesOkTail(t: seq<Conf>)
    requires t != [] && NamesOk(t)
    ensures NamesOk(t[1..])
  {
    forall i | 0 <= i < |t[1..]| ensures NameOk(t[1..][i].name) {
      assert t[1..][i] == t[i + 1];
    }
  }

  lemma CanonicalAllCons(store: seq<Conf>, t: seq<Conf>)
    requires t != []
    ensures store + [Canonical(t[0])] + CanonicalAll(t[1..]) == store + CanonicalAll(t)
  {
    var a := store + [Canonical(t[0])] + CanonicalAll(t[1..]);
    var b := store + CanonicalAll(t);
    assert |a| == |b|;
    forall i | |store| < i < |a| ensures a[i] == b[i] {
      assert a[i] == CanonicalAll(t[1..])[i - |store| - 1];
      assert b[i] == CanonicalAll(t)[i - |store|];
    }
    assert a == b;
  }

  /** Decoding the full rewrite gives back the records, in order, each in its
      canonical form, whenever every name is a single word other than `|`. */
  lemma RoundTrip(t: seq<Conf>)
    requires NamesOk(t)
    ensures Load(true, EncodeFile(t)) == Loaded(Ok, CanonicalAll(t))
  {
    ScanRecords(t, []);
    assert EncodeFile(t)[1..] == EncodeRecords(t);
    assert [] + CanonicalAll(t) == CanonicalAll(t);
  }

  /** Records already in canonical form come back exactly. */
  lemma RoundTripExact(t: seq<Conf>)
    requires NamesOk(t)
    requires forall i :: 0 <= i < |t| ==> IsCanonical(t[i])
    ensures Load(true, EncodeFile(t)) == Loaded(Ok, t)
  {
    RoundTrip(t);
    forall i | 0 <= i < |t| ensures CanonicalAll(t)[i] == t[i] {
      CanonicalFixes(t[i]);
    }
  }

  /** Whatever a load produced, rewriting it and loading again yields the
      same records in canonical form; a second rewrite changes nothing more. */
  lemma RewriteAfterLoad(readable: bool, file: seq<string>)
    ensures Load(true, EncodeFile(Load(readable, file).store))
         == Loaded(Ok, CanonicalAll(Load(readable, file).store))
    ensures Load(true, EncodeFile(CanonicalAll(Load(readable, file).store)))
         == Loaded(Ok, CanonicalAll(Load(readable, file).store))
  {
    var s := Load(readable, file).store;
    LoadedNamesOk(readable, file);
    RoundTrip(s);
    assert NamesOk(CanonicalAll(s));
    forall i | 0 <= i < |s| ensures IsCanonical(CanonicalAll(s)[i]) {
      CanonicalFixes(s[i]);
    }
    RoundTripExact(CanonicalAll(s));
  }

  lemma ConsStarts(x: string, rest: seq<string>)
    ensures CountStarts([x] + rest)
         == (if FirstWord(Words(x)) == "0." then 1 else 0) + CountStarts(rest)
  {
    assert ([x] + rest)[1..] == rest;
  }

  lemma {:induction false} CountStartsAppend(a: seq<string>, b: seq<string>)
    ensures CountStarts(a + b) == CountStarts(a) + CountStarts(b)
    decreases |a|
  {
    if a == [] {
      assert a + b == b;
    } else {
      assert (a + b)[0] == a[0];
      assert (a + b)[1..] == a[1..] + b;
      CountStartsAppend(a[1..], b);
    }
  }

  /** Value lines open with their field's prefix, never with `0.`. */
  lemma {:induction false} ValueLinesNoStart(fs: seq<Field>, c: Conf)
    ensures CountStarts(ValueLines(fs, c)) == 0
    decreases |fs|
  {
    if fs != [] {
      ValueLineWords(fs[0], Get(c, fs[0]));
      PrefixFacts(fs[0]);
      ConsStarts(ValueLine(fs[0], Get(c, fs[0])), ValueLines(fs[1..], c));
      ValueLinesNoStart(fs[1..], c);
    }
  }

  /** The count over a block's shape: one opening `0.` line, then lines
      that open otherwise. */
  lemma BlockShapeStarts(l0: string, l1: string, l2: string, l3: string, ins: seq<string>,
                         l14: string, outs: seq<string>)
    requires FirstWord(Words(l0)) == "0."
    requires FirstWord(Words(l1)) != "0." && FirstWord(Words(l2)) != "0."
    requires FirstWord(Words(l3)) != "0." && FirstWord(Words(l14)) != "0."
    requires CountStarts(ins) == 0 && CountStarts(outs) == 0
    ensures CountStarts([l0] + ([l1] + ([l2] + ([l3] + (ins + ([l14] + outs)))))) == 1
  {
    ConsStarts(l14, outs);
    CountStartsAppend(ins, [l14] + outs);
    var tail := ins + ([l14] + outs);
    ConsStarts(l3, tail);
    ConsStarts(l2, [l3] + tail);
    ConsStarts(l1, [l2] + ([l3] + tail));
    ConsStarts(l0, [l1] + ([l2] + ([l3] + tail)));
  }

  // The first words of a block's fixed lines, one lemma each so that the
  // literal lines are not all unfolded together.

  lemma RuleLineOpens()
    ensures FirstWord(Words(RuleLine)) == "0."
  {
    LeadLineWords("0.", Rule);
  }

  lemma TitleLineOpens(title: string)
    ensures FirstWord(Words(TitleLine(title))) == "1."
  {
    var pad := Pad(title, NameWidth);
    assert TitleLine(title) == Lead("1.") + (pad + "Porch Name");
    LeadLineWords("1.", pad + "Porch Name");
  }

  lemma KindLineOpens(isDSC: bool)
    ensures FirstWord(Words(KindLine(isDSC))) == "2."
  {
    var body := Pad(KindWord(isDSC), NameWidth) + "Porch Type";
    assert KindLine(isDSC) == Lead("2.") + body;
    LeadLineWords("2.", body);
  }

  lemma DividerLinesOpen()
    ensures FirstWord(Words(InputDividerLine)) == "3."
    ensures FirstWord(Words(OutputDividerLine)) == "14."
  {
    LeadLineWords("3.", InputDivider);
    LeadLineWords("14.", OutputDivider);
  }

  /** A block, whatever its title and values, holds exactly one `0.` line:
      every other line opens with its own prefix. */
  lemma BlockStarts(title: string, c: Conf)
    ensures CountStarts(BlockLines(title, c)) == 1
  {
    ValueLinesNoStart(InputFields, c);
    ValueLinesNoStart(OutputFields(c.isDSC), c);
    RuleLineOpens();
    TitleLineOpens(title);
    KindLineOpens(c.isDSC);
    DividerLinesOpen();
    BlockShapeStarts(RuleLine, TitleLine(title), KindLine(c.isDSC), InputDividerLine,
                     ValueLines(InputFields, c), OutputDividerLine, ValueLines(OutputFields(c.isDSC), c));
  }

  /** The full rewrite writes exactly one `0.` line per record, whatever the
      names hold. */
  lemma {:induction false} EncodedStarts(t: seq<Conf>)
    ensures CountStarts(EncodeRecords(t)) == |t|
    decreases |t|
  {
    if t != [] {
      BlockStarts(FullName(t[0]), t[0]);
      CountStartsAppend(BlockLines(FullName(t[0]), t[0]), EncodeRecords(t[1..]));
      EncodedStarts(t[1..]);
    }
  }

  // ---------------------------------------------------------------------
  // Arbitrary lines, as a hand-edited file may hold them

  /** Any field line, whatever follows its prefix, stores the number read
      from its second word (0 when there is none) into its own field of the
      last record; name, mode, every other field and every earlier record
      keep their values. */
  lemma AnyFieldLine(store: seq<Conf>, line: string, f: Field)
    requires store != [] && FieldOfPrefix(FirstWord(Words(line))) == Some(f)
    ensures var r := HandleLine(store, line);
            r.Accept? && |r.store| == |store| && r.store[..|store| - 1] == store[..|store| - 1]
            && Last(r.store).name == Last(store).name && Last(r.store).isDSC == Last(store).isDSC
            && Get(Last(r.store), f) == ValueOf(RestWords(Words(line)))
            && forall g :: g != f ==> Get(Last(r.store), g) == Get(Last(store), g)
  {
    PrefixFacts(f);
  }

  /** Any `2.` line makes the last record DSC exactly when its next word is
      `DSC`, so `2.` alone or `2. dsc` give NonDSC; nothing else changes. */
  lemma AnyKindLine(store: seq<Conf>, line: string)
    requires store != [] && FirstWord(Words(line)) == "2."
    ensures var r := HandleLine(store, line);
            var rest := RestWords(Words(line));
            r.Accept? && |r.store| == |store| && r.store[..|store| - 1] == store[..|store| - 1]
            && (Last(r.store).isDSC <==> rest != [] && rest[0] == "DSC")
            && Last(r.store).name == Last(store).name
            && forall g :: Get(Last(r.store), g) == Get(Last(store), g)
  {
  }

  /** Any `1.` line renames the last record to the words before the first
      `|`, glued together; mode, fields and earlier records are kept. */
  lemma AnyTitleLine(store: seq<Conf>, line: string)
    requires store != [] && FirstWord(Words(line)) == "1."
    ensures var r := HandleLine(store, line);
            r.Accept? && |r.store| == |store| && r.store[..|store| - 1] == store[..|store| - 1]
            && Last(r.store).name == NameOf(RestWords(Words(line)))
            && NameOk(Last(r.store).name)
            && Last(r.store).isDSC == Last(store).isDSC
            && forall g :: Get(Last(r.store), g) == Get(Last(store), g)
  {
    NameOfIsNameOk(RestWords(Words(line)));
  }

  // ---------------------------------------------------------------------
  // The header appears once

  /** A line that opens with a digit, as every numbered line does. */
  predicate Numbered(l: string) {
    l != [] && IsDigit(l[0])
  }

  predicate AllNumbered(ls: seq<string>) {
    forall i :: 0 <= i < |ls| ==> Numbered(ls[i])
  }

  lemma ConsNumbered(l: string, ls: seq<string>)
    requires Numbered(l) && AllNumbered(ls)
    ensures AllNumbered([l] + ls)
  {
    forall i | 0 <= i < |[l] + ls| ensures Numbered(([l] + ls)[i]) {
      if i > 0 {
        assert ([l] + ls)[i] == ls[i - 1];
      }
    }
  }

  lemma AppendNumbered(a: seq<string>, b: seq<string>)
    requires AllNumbered(a) && AllNumbered(b)
    ensures AllNumbered(a + b)
  {
    forall i | 0 <= i < |a + b| ensures Numbered((a + b)[i]) {
      if i >= |a| {
        assert (a + b)[i] == b[i - |a|];
      }
    }
  }

  lemma LeadNumbered(p: string, body: string)
    requires p != [] && IsDigit(p[0])
    ensures Numbered(Lead(p) + body)
  {
    assert (Lead(p) + body)[0] == p[0];
  }

  lemma {:induction false} ValueLinesNumbered(fs: seq<Field>, c: Conf)
    ensures AllNumbered(ValueLines(fs, c))
    decreases |fs|
  {
    if fs != [] {
      var f := fs[0];
      assert Prefix(f) != [] && IsDigit(Prefix(f)[0]);
      LeadNumbered(Prefix(f), Pad(FormatInt(Get(c, f)), ValueWidth) + Label(f));
      ValueLinesNumbered(fs[1..], c);
      ConsNumbered(ValueLine(f, Get(c, f)), ValueLines(fs[1..], c));
    }
  }

  /** Every line of a block is numbered. */
  lemma BlockNumbered(title: string, c: Conf)
    ensures AllNumbered(BlockLines(title, c))
  {
    var outs := ValueLines(OutputFields(c.isDSC), c);
    var ins := ValueLines(InputFields, c);
    ValueLinesNumbered(InputFields, c);
    ValueLinesNumbered(OutputFields(c.isDSC), c);
    LeadNumbered("14.", OutputDivider);
    ConsNumbered(OutputDividerLine, outs);
    AppendNumbered(ins, [OutputDividerLine] + outs);
    LeadNumbered("3.", InputDivider);
    ConsNumbered(InputDividerLine, ins + ([OutputDividerLine] + outs));
    LeadNumbered("2.", Pad(KindWord(c.isDSC), NameWidth) + "Porch Type");
    ConsNumbered(KindLine(c.isDSC), [InputDividerLine] + (ins + ([OutputDividerLine] + outs)));
    LeadNumbered("1.", Pad(title, NameWidth) + "Porch Name");
    ConsNumbered(TitleLine(title), [KindLine(c.isDSC)] + ([InputDividerLine] + (ins + ([OutputDividerLine] + outs))));
    LeadNumbered("0.", Rule);
    ConsNumbered(RuleLine, [TitleLine(title)] + ([KindLine(c.isDSC)] + ([InputDividerLine] + (ins + ([OutputDividerLine] + outs)))));
  }

  lemma HeaderNotNumbered()
    ensures !Numbered(Header)
  {
    assert Header[0] == 'P';
  }

  /** No block line is the header, which opens with a letter. */
  lemma BlockHasNoHeader(title: string, c: Conf)
    ensures Header !in BlockLines(title, c)
  {
    BlockNumbered(title, c);
    HeaderNotNumbered();
  }

  /** The full rewrite writes the header as its first line and nowhere
      else. */
  lemma {:induction false} HeaderOnlyFirst(t: seq<Conf>)
    ensures Header !in EncodeRecords(t)
    ensures var file := EncodeFile(t); forall i :: 1 <= i < |file| ==> file[i] != Header
    decreases |t|
  {
    if t != [] {
      BlockHasNoHeader(FullName(t[0]), t[0]);
      HeaderOnlyFirst(t[1..]);
    }
    assert EncodeFile(t)[1..] == EncodeRecords(t);
  }
}
