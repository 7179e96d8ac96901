/** The two writers of the porch-conf file and the delete operation built on
    the full rewrite. A file is its lines; whether it can be opened is a
    parameter, and the in-memory store is passed in and returned. */
module Store {
  import opened Text
  import opened Records
  import opened Codec
  import opened CodecLaws

  // ---------------------------------------------------------------------
  // Append save from a window

  /** The record a window's save writes: its ten inputs and the outputs of
      its mode, in file order. The name is not part of it; the title line
      carries the window's name instead. */
  function WindowRecord(isDSC: bool, input: seq<int>, output: seq<int>): (c: Conf)
    requires |input| == 10 && |output| == |OutputFields(isDSC)|
    ensures c.isDSC == isDSC && IsCanonical(c)
    ensures forall k :: 0 <= k < 10 ==> Get(c, InputFields[k]) == input[k]
    ensures forall k :: 0 <= k < |output| ==> Get(c, OutputFields(isDSC)[k]) == output[k]
  {
    Conf("", isDSC,
      input[0], input[1], input[2], input[3], input[4],
      input[5], input[6], input[7], input[8], input[9],
      output[0], output[1], output[2], output[3], output[4],
      if isDSC then output[5] else NotApplicable,
      if isDSC then output[6] else NotApplicable)
  }

  /** Every input buffer of the window holds some text. */
  predicate AllFilled(buffers: seq<string>) {
    forall k :: 0 <= k < |buffers| ==> buffers[k] != ""
  }

  datatype Saved = Saved(ok: bool, file: seq<string>)

  /** `SaveToPorchConfFile(isDSC, index, input, output)`: refuses unless all
      ten input buffers are filled and the file opens for appending; then
      appends one block titled with the window's name. */
  function SaveWindow(isDSC: bool, title: string, buffers: seq<string>, input: seq<int>, output: seq<int>,
                      file: seq<string>, writable: bool): (r: Saved)
    requires |buffers| == 10 && |input| == 10 && |output| == |OutputFields(isDSC)|
    ensures r.ok <==> writable && AllFilled(buffers)
    ensures !r.ok ==> r.file == file
    ensures r.ok ==> |r.file| == |file| + (if isDSC then 22 else 20) && r.file[..|file|] == file
    ensures r.ok ==> Header !in r.file[|file|..]
  {
    if !AllFilled(buffers) then Saved(false, file)
    else if !writable then Saved(false, file)
    else
      var block := BlockLines(title, WindowRecord(isDSC, input, output));
      BlockHasNoHeader(title, WindowRecord(isDSC, input, output));
      assert (file + block)[|file|..] == block;
      Saved(true, file + block)
  }

  /** After a successful save into a file that loads, loading gives the old
      records followed by the window's record under the name its title
      yields; for a title `x | DSC` or `x | NonDSC` with a one-word `x`, that
      name is `x`. */
  lemma SaveThenLoad(isDSC: bool, title: string, buffers: seq<string>, input: seq<int>, output: seq<int>,
                     file: seq<string>)
    requires |buffers| == 10 && |input| == 10 && |output| == |OutputFields(isDSC)|
    requires Load(true, file).status == Ok
    requires SaveWindow(isDSC, title, buffers, input, output, file, true).ok
    ensures Load(true, SaveWindow(isDSC, title, buffers, input, output, file, true).file)
         == Loaded(Ok, Load(true, file).store + [WindowRecord(isDSC, input, output).(name := TitleName(title))])
  {
    var c := WindowRecord(isDSC, input, output);
    AppendBlockThenLoad(file, title, c);
    CanonicalFixes(c);
  }

  /** Appending one block to a file that loads adds one record to what it
      loads. */
  lemma AppendBlockThenLoad(file: seq<string>, title: string, c: Conf)
    requires Load(true, file).status == Ok
    ensures Load(true, file + BlockLines(title, c))
         == Loaded(Ok, Load(true, file).store + [Canonical(c).(name := TitleName(title))])
  {
    LoadAppend(file, BlockLines(title, c));
    ScanBlock(title, c, Load(true, file).store);
  }

  /** Loading a file with more lines after it is loading the file, then
      scanning the extra lines if that got through. */
  lemma LoadAppend(file: seq<string>, extra: seq<string>)
    requires file != [] && file[0] == Header
    ensures Load(true, file + extra)
         == (var r := Load(true, file); if r.status == Ok then Scan(extra, r.store) else r)
  {
    var after := file + extra;
    assert after[0] == Header;
    assert after[1..] == file[1..] + extra;
    ScanAppend(file[1..], extra, []);
  }

  /** The window's own name comes back when the title is the name plus the
      mode suffix, as the window menu builds it. */
  lemma SavedWindowName(x: string, isDSC: bool)
    requires NameOk(x)
    ensures TitleName(x + (if isDSC then DscSuffix else NonDscSuffix)) == x
  {
    SuffixesAreSeparated();
    var k := KindWord(isDSC);
    assert x + (if isDSC then DscSuffix else NonDscSuffix) == x + " | " + k;
    TitleNameOfSuffixed(x, k);
    NameOfNameOk(x);
  }

  // ---------------------------------------------------------------------
  // The first save on a machine without a porch-conf file

  /** Opening for append creates a missing file (modelled as the empty one),
      and the append save never writes the header; so the first save yields a
      file the loader always refuses, even though the save reports success. */
  lemma FirstSaveUnloadable(isDSC: bool, title: string, buffers: seq<string>, input: seq<int>, output: seq<int>)
    requires |buffers| == 10 && |input| == 10 && |output| == |OutputFields(isDSC)|
    requires AllFilled(buffers)
    ensures var r := SaveWindow(isDSC, title, buffers, input, output, [], true);
            r.ok && Load(true, r.file) == Loaded(BadHeader, [])
  {
    var c := WindowRecord(isDSC, input, output);
    BlockHasNoHeader(title, c);
    assert ([] + BlockLines(title, c))[0] == BlockLines(title, c)[0];
  }

  /** The append save corrected to start a missing or empty file with the
      header, as the full rewrite does; otherwise it is `SaveWindow`. */
  function SaveWindowCreating(isDSC: bool, title: string, buffers: seq<string>, input: seq<int>,
                              output: seq<int>, file: seq<string>, writable: bool): (r: Saved)
    requires |buffers| == 10 && |input| == 10 && |output| == |OutputFields(isDSC)|
    ensures r.ok <==> writable && AllFilled(buffers)
    ensures !r.ok ==> r.file == file
    ensures r.ok && file != [] ==> r == SaveWindow(isDSC, title, buffers, input, output, file, writable)
    ensures r.ok && file == [] ==> r.file != [] && r.file[0] == Header
  {
    var saved := SaveWindow(isDSC, title, buffers, input, output, file, writable);
    if saved.ok && file == [] then Saved(true, [Header] + saved.file) else saved
  }

  /** With the correction, the first save leaves a file that loads to the
      window's record alone. */
  lemma SaveCreatingIntoMissing(isDSC: bool, title: string, buffers: seq<string>, input: seq<int>,
                                output: seq<int>)
    requires |buffers| == 10 && |input| == 10 && |output| == |OutputFields(isDSC)|
    requires AllFilled(buffers)
    ensures Load(true, SaveWindowCreating(isDSC, title, buffers, input, output, [], true).file)
         == Loaded(Ok, [WindowRecord(isDSC, input, output).(name := TitleName(title))])
  {
    var c := WindowRecord(isDSC, input, output);
    var block := BlockLines(title, c);
    assert SaveWindow(isDSC, title, buffers, input, output, [], true).file == block by {
      assert [] + block == block;
    }
    assert Load(true, [Header]) == Loaded(Ok, []);
    AppendBlockThenLoad([Header], title, c);
    CanonicalFixes(c);
  }

  /** With the correction, a save into a missing file or into a file that
      loads leaves a file that loads, holding the earlier records and then
      the window's. */
  lemma SaveCreatingThenLoad(isDSC: bool, title: string, buffers: seq<string>, input: seq<int>,
                             output: seq<int>, file: seq<string>)
    requires |buffers| == 10 && |input| == 10 && |output| == |OutputFields(isDSC)|
    requires file == [] || Load(true, file).status == Ok
    requires AllFilled(buffers)
    ensures Load(true, SaveWindowCreating(isDSC, title, buffers, input, output, file, true).file)
         == Loaded(Ok, (if file == [] then [] else Load(true, file).store)
                       + [WindowRecord(isDSC, input, output).(name := TitleName(title))])
  {
    if file == [] {
      SaveCreatingIntoMissing(isDSC, title, buffers, input, output);
    } else {
      SaveThenLoad(isDSC, title, buffers, input, output, file);
    }
  }

  // ---------------------------------------------------------------------
  // Full rewrite and delete

  datatype Rewritten = Rewritten(ok: bool, file: seq<string>, store: seq<Conf>)

  /** `SaveToPorchConfFile()`: truncates the file, writes the header and every
      record, then reloads the store from what it wrote. It reports success
      once the write happened, whatever the reload does. */
  function Rewrite(store: seq<Conf>, file: seq<string>, writable: bool, readable: bool): (r: Rewritten)
    ensures r.ok == writable
    ensures !writable ==> r.file == file && r.store == store
    ensures writable ==> Load(true, r.file).status == Ok || !NamesOk(store)
    ensures writable && readable && NamesOk(store) ==> r.store == CanonicalAll(store)
    ensures writable && !readable ==> r.store == []
  {
    if !writable then Rewritten(false, file, store)
    else
      var written := EncodeFile(store);
      RoundTripWhenNamesOk(store);
      Rewritten(true, written, Load(readable, written).store)
  }

  lemma RoundTripWhenNamesOk(t: seq<Conf>)
    ensures NamesOk(t) ==> Load(true, EncodeFile(t)) == Loaded(Ok, CanonicalAll(t))
  {
    if NamesOk(t) {
      RoundTrip(t);
    }
  }

  /** The store without the record at `index`. */
  function Erase(store: seq<Conf>, index: nat): (r: seq<Conf>)
    requires index < |store|
    ensures |r| == |store| - 1
    ensures forall i :: 0 <= i < index ==> r[i] == store[i]
    ensures forall i :: index <= i < |r| ==> r[i] == store[i + 1]
  {
    store[..index] + store[index + 1..]
  }

  /** `DeletePage(index)`: erases the record, then rewrites the file from the
      store. When the rewrite cannot open the file, the record is gone from
      memory but the file still holds it. */
  function DeletePage(store: seq<Conf>, index: nat, file: seq<string>, writable: bool, readable: bool)
    : (r: Rewritten)
    requires index < |store|
    ensures r.ok == writable
    ensures !writable ==> r.file == file && r.store == Erase(store, index)
    ensures writable ==> r.file == EncodeFile(Erase(store, index))
    ensures writable && !readable ==> r.store == []
    ensures writable && readable && NamesOk(store) ==>
              |r.store| == |store| - 1
              && (forall i :: 0 <= i < index ==> r.store[i] == Canonical(store[i]))
              && (forall i :: index <= i < |r.store| ==> r.store[i] == Canonical(store[i + 1]))
  {
    var rest := Erase(store, index);
    assert NamesOk(store) ==> NamesOk(rest);
    Rewrite(rest, file, writable, readable)
  }

  /** Every store the program holds came from a load, so deleting from it
      and reloading yields the remaining records in canonical form, and the
      file it wrote loads back to exactly that store. */
  lemma DeleteLoaded(readable0: bool, file0: seq<string>, index: nat, file: seq<string>)
    requires index < |Load(readable0, file0).store|
    ensures var s := Load(readable0, file0).store;
            var r := DeletePage(s, index, file, true, true);
            r.store == CanonicalAll(Erase(s, index)) && Load(true, r.file) == Loaded(Ok, r.store)
  {
    var s := Load(readable0, file0).store;
    LoadedNamesOk(readable0, file0);
    assert NamesOk(Erase(s, index));
  }

  /** Values written for a record depend only on the fields listed. */
  lemma {:induction false} ValueLinesAgree(fs: seq<Field>, c: Conf, d: Conf)
    requires forall k :: 0 <= k < |fs| ==> Get(c, fs[k]) == Get(d, fs[k])
    ensures ValueLines(fs, c) == ValueLines(fs, d)
    decreases |fs|
  {
    if fs != [] {
      ValueLinesAgree(fs[1..], c, d);
    }
  }

  /** A record and its canonical form are written identically. */
  lemma BlockOfCanonical(title: string, c: Conf)
    ensures BlockLines(title, Canonical(c)) == BlockLines(title, c)
  {
    var d := Canonical(c);
    forall k | 0 <= k < |InputFields| ensures Get(c, InputFields[k]) == Get(d, InputFields[k]) {
      CoveredFields(c.isDSC, InputFields[k]);
    }
    ValueLinesAgree(InputFields, c, d);
    var outs := OutputFields(c.isDSC);
    forall k | 0 <= k < |outs| ensures Get(c, outs[k]) == Get(d, outs[k]) {
      CoveredFields(c.isDSC, outs[k]);
    }
    ValueLinesAgree(outs, c, d);
  }

  lemma {:induction false} EncodeCanonical(t: seq<Conf>)
    ensures EncodeRecords(CanonicalAll(t)) == EncodeRecords(t)
    decreases |t|
  {
    if t != [] {
      var ct := CanonicalAll(t);
      assert ct[0] == Canonical(t[0]);
      assert ct[1..] == CanonicalAll(t[1..]);
      BlockOfCanonical(FullName(t[0]), t[0]);
      EncodeCanonical(t[1..]);
    }
  }

  /** Rewriting is a fixed point after one round: rewriting the store a
      rewrite reloaded writes the very same file and reloads the same
      records. */
  lemma RewriteTwice(store: seq<Conf>, file: seq<string>)
    requires NamesOk(store)
    ensures var r1 := Rewrite(store, file, true, true);
            var r2 := Rewrite(r1.store, r1.file, true, true);
            r2.file == r1.file && r2.store == r1.store
  {
    var r1 := Rewrite(store, file, true, true);
    EncodeCanonical(store);
    assert NamesOk(CanonicalAll(store));
  }
}
