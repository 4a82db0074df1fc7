/**
 * The index merge of `_build_index` (aptos_move_analyzer/indexer.py): every file
 * that reads and parses contributes its modules, keyed by module key with the
 * last write winning, each carrying the same-file functions of its name, and
 * appends its functions to the multimap keyed by simple name.
 *
 * `MergeAll` specifies the merge on per-file extraction results; the Python
 * `BuildIndex` below and the TypeScript `TsIndexer.BuildIndex` are both proved
 * equal to it.
 */
module IndexMerge {
  import opened Options
  import opened OrderedMaps
  import opened SyntaxTree
  import opened MoveTypes
  import opened Indexer

  /** The text of a file and the tree the parser built from it. */
  datatype ParsedFile = ParsedFile(text: string, root: Node)

  /** A scanned `.move` file; `parsed` is None when reading or parsing it raised. */
  datatype SourceFile = SourceFile(path: string, parsed: Option<ParsedFile>)

  /** What one file contributes: nothing when it raised, otherwise the modules and
      functions extracted from it. */
  datatype FileResult = Failed | Extracted(modules: seq<ModuleInfo>, functions: seq<FunctionInfo>)

  /** The extraction of one file, as `_build_index` performs it. */
  function ExtractFile(f: SourceFile): FileResult
  {
    match f.parsed
    case None => Failed
    case Some(p) => Extracted(ModulesIn(p.root, f.path, p.text), FunctionsIn(p.root, f.path, p.text))
  }

  function ExtractAll(files: seq<SourceFile>): (rs: seq<FileResult>)
    ensures |rs| == |files| && forall i :: 0 <= i < |files| ==> rs[i] == ExtractFile(files[i])
  {
    seq(|files|, i requires 0 <= i < |files| => ExtractFile(files[i]))
  }

  // ----- per-module function lists -----

  /** `[f for f in fs if f.module_name == name]`: only the name is compared, never
      the address. */
  function SameModule(fs: seq<FunctionInfo>, name: string): (r: seq<FunctionInfo>)
    ensures |r| <= |fs|
    ensures forall k :: 0 <= k < |r| ==> r[k].moduleName == name
  {
    if fs == [] then []
    else SameModule(fs[..|fs| - 1], name) + (if fs[|fs| - 1].moduleName == name then [fs[|fs| - 1]] else [])
  }

  /** A function is in a module's list exactly when it was extracted from the same
      file with that module name. */
  lemma {:induction false} SameModuleMembership(fs: seq<FunctionInfo>, name: string, x: FunctionInfo)
    ensures x in SameModule(fs, name) <==> x in fs && x.moduleName == name
    decreases |fs|
  {
    if fs != [] {
      SameModuleMembership(fs[..|fs| - 1], name, x);
      assert fs == fs[..|fs| - 1] + [fs[|fs| - 1]];
    }
  }

  /** The module record as it is stored: the extracted record with its function list
      set from the file's functions. */
  function ModuleEntry(m: ModuleInfo, fs: seq<FunctionInfo>): (e: ModuleInfo)
    ensures e.moduleName == m.moduleName && e.address == m.address && e.filePath == m.filePath
    ensures e.structs == m.structs && e.constants == m.constants
    ensures forall k :: 0 <= k < |e.functions| ==> e.functions[k].moduleName == m.moduleName
  {
    m.(functions := SameModule(fs, m.moduleName))
  }

  /** The stored records of one file's modules, in extraction order. */
  function Entries(ms: seq<ModuleInfo>, fs: seq<FunctionInfo>): (es: seq<ModuleInfo>)
    ensures |es| == |ms| && forall i :: 0 <= i < |ms| ==> es[i] == ModuleEntry(ms[i], fs)
  {
    seq(|ms|, i requires 0 <= i < |ms| => ModuleEntry(ms[i], fs))
  }

  function EntryKey(e: ModuleInfo): string
  {
    ModuleKey(e.address, e.moduleName)
  }

  /** Storing the records one after the other under their keys. */
  function AddEntries(mods: OrderedMap<ModuleInfo>, es: seq<ModuleInfo>): OrderedMap<ModuleInfo>
  {
    if es == [] then mods
    else
      var e := es[|es| - 1];
      AddEntries(mods, es[..|es| - 1]).Set(EntryKey(e), e)
  }

  lemma {:induction false} AddEntriesAppend(mods: OrderedMap<ModuleInfo>, a: seq<ModuleInfo>, b: seq<ModuleInfo>)
    ensures AddEntries(mods, a + b) == AddEntries(AddEntries(mods, a), b)
    decreases |b|
  {
    if b == [] {
      assert a + b == a;
    } else {
      var front := b[..|b| - 1];
      assert (a + b)[..|a + b| - 1] == a + front;
      assert (a + b)[|a + b| - 1] == b[|b| - 1];
      AddEntriesAppend(mods, a, front);
    }
  }

  /** Storing the records of one more module of a file. */
  lemma AddEntriesStep(mods: OrderedMap<ModuleInfo>, ms: seq<ModuleInfo>, fs: seq<FunctionInfo>, j: nat)
    requires j < |ms|
    ensures var e := ModuleEntry(ms[j], fs);
            AddEntries(mods, Entries(ms[..j + 1], fs)) == AddEntries(mods, Entries(ms[..j], fs)).Set(EntryKey(e), e)
  {
    var a := Entries(ms[..j + 1], fs);
    var b := Entries(ms[..j], fs);
    forall i | 0 <= i < j ensures a[..j][i] == b[i] {
      assert ms[..j + 1][i] == ms[..j][i];
    }
    assert a[..j] == b;
    assert a[j] == ModuleEntry(ms[j], fs);
  }

  /** The position of the last record with key `k`. */
  function LastWithKey(es: seq<ModuleInfo>, k: string): (r: Option<nat>)
    ensures r.Some? ==> r.value < |es| && EntryKey(es[r.value]) == k
    ensures r.Some? ==> forall j :: r.value < j < |es| ==> EntryKey(es[j]) != k
    ensures r.None? ==> forall j :: 0 <= j < |es| ==> EntryKey(es[j]) != k
  {
    if es == [] then None
    else if EntryKey(es[|es| - 1]) == k then Some(|es| - 1)
    else LastWithKey(es[..|es| - 1], k)
  }

  /** Last write wins: after storing the records, key `k` holds the last record with
      that key, and a key none of them has keeps what it held before. */
  lemma {:induction false} AddEntriesGet(mods: OrderedMap<ModuleInfo>, es: seq<ModuleInfo>, k: string)
    ensures AddEntries(mods, es).Get(k) == match LastWithKey(es, k)
                                           case Some(i) => Some(es[i])
                                           case None => mods.Get(k)
    decreases |es|
  {
    if es != [] {
      var front := es[..|es| - 1];
      var e := es[|es| - 1];
      AddEntriesGet(mods, front, k);
      if EntryKey(e) == k {
        assert LastWithKey(es, k) == Some(|es| - 1);
      } else {
        assert LastWithKey(es, k) == LastWithKey(front, k);
        assert AddEntries(mods, es).Get(k) == AddEntries(mods, front).Get(k);
      }
    }
  }

  /** Storing records under their own keys keeps every module under its own key. */
  lemma {:induction false} AddEntriesKeyed(mods: OrderedMap<ModuleInfo>, es: seq<ModuleInfo>)
    requires ModulesKeyed(mods)
    ensures ModulesKeyed(AddEntries(mods, es))
    decreases |es|
  {
    if es != [] {
      var before := AddEntries(mods, es[..|es| - 1]);
      AddEntriesKeyed(mods, es[..|es| - 1]);
      var e := es[|es| - 1];
      var after := before.Set(EntryKey(e), e);
      forall i | 0 <= i < |after.items|
        ensures after.items[i].0 == ModuleKey(after.items[i].1.address, after.items[i].1.moduleName)
      {
        if after.items[i] != (EntryKey(e), e) {
          var j :| 0 <= j < |before.items| && before.items[j] == after.items[i];
        }
      }
    }
  }

  // ----- the function multimap -----

  /** Appending one function to the list for its name. */
  function AddFunction(fm: OrderedMap<seq<FunctionInfo>>, f: FunctionInfo): (r: OrderedMap<seq<FunctionInfo>>)
    ensures Lookup(r, f.name) == Lookup(fm, f.name) + [f]
    ensures forall n :: n != f.name ==> Lookup(r, n) == Lookup(fm, n)
  {
    fm.Set(f.name, Lookup(fm, f.name) + [f])
  }

  function AddFunctions(fm: OrderedMap<seq<FunctionInfo>>, fs: seq<FunctionInfo>): OrderedMap<seq<FunctionInfo>>
  {
    if fs == [] then fm else AddFunction(AddFunctions(fm, fs[..|fs| - 1]), fs[|fs| - 1])
  }

  lemma {:induction false} AddFunctionsAppend(fm: OrderedMap<seq<FunctionInfo>>, a: seq<FunctionInfo>, b: seq<FunctionInfo>)
    ensures AddFunctions(fm, a + b) == AddFunctions(AddFunctions(fm, a), b)
    decreases |b|
  {
    if b == [] {
      assert a + b == a;
    } else {
      var front := b[..|b| - 1];
      assert (a + b)[..|a + b| - 1] == a + front;
      assert (a + b)[|a + b| - 1] == b[|b| - 1];
      AddFunctionsAppend(fm, a, front);
    }
  }

  /** The functions named `name`, in order. */
  function SameName(fs: seq<FunctionInfo>, name: string): (r: seq<FunctionInfo>)
    ensures |r| <= |fs|
    ensures forall k :: 0 <= k < |r| ==> r[k].name == name
  {
    if fs == [] then []
    else SameName(fs[..|fs| - 1], name) + (if fs[|fs| - 1].name == name then [fs[|fs| - 1]] else [])
  }

  /** A function is among those of a name exactly when it is in the list and has
      that name. */
  lemma {:induction false} SameNameMembership(fs: seq<FunctionInfo>, name: string, x: FunctionInfo)
    ensures x in SameName(fs, name) <==> x in fs && x.name == name
    decreases |fs|
  {
    if fs != [] {
      SameNameMembership(fs[..|fs| - 1], name, x);
      assert fs == fs[..|fs| - 1] + [fs[|fs| - 1]];
    }
  }

  /** The functions of a name in two lists in turn are those of their concatenation. */
  lemma {:induction false} SameNameAppend(a: seq<FunctionInfo>, b: seq<FunctionInfo>, name: string)
    ensures SameName(a + b, name) == SameName(a, name) + SameName(b, name)
    decreases |b|
  {
    if b == [] {
      assert a + b == a;
    } else {
      var front := b[..|b| - 1];
      assert (a + b)[..|a + b| - 1] == a + front;
      assert (a + b)[|a + b| - 1] == b[|b| - 1];
      SameNameAppend(a, front, name);
    }
  }

  /** The entries already under a name stay, in order, and the new functions of that
      name follow them in the order they were added. */
  lemma {:induction false} AddFunctionsLookup(fm: OrderedMap<seq<FunctionInfo>>, fs: seq<FunctionInfo>, name: string)
    ensures Lookup(AddFunctions(fm, fs), name) == Lookup(fm, name) + SameName(fs, name)
    decreases |fs|
  {
    if fs != [] {
      var front, f := fs[..|fs| - 1], fs[|fs| - 1];
      var before := AddFunctions(fm, front);
      AddFunctionsLookup(fm, front, name);
      assert AddFunctions(fm, fs) == AddFunction(before, f);
      assert SameName(fs, name) == SameName(front, name) + (if f.name == name then [f] else []);
      if f.name == name {
        assert Lookup(AddFunction(before, f), name) == (Lookup(fm, name) + SameName(front, name)) + [f];
      } else {
        assert Lookup(AddFunction(before, f), name) == Lookup(fm, name) + SameName(front, name);
      }
    }
  }

  /** Adding the functions up to and including position `k`. */
  lemma AddFunctionsStep(fm: OrderedMap<seq<FunctionInfo>>, fs: seq<FunctionInfo>, k: nat)
    requires k < |fs|
    ensures AddFunctions(fm, fs[..k + 1]) == AddFunction(AddFunctions(fm, fs[..k]), fs[k])
  {
    assert fs[..k + 1][..k] == fs[..k];
  }

  /** The number of entries over all names. */
  function TotalEntries(items: seq<(string, seq<FunctionInfo>)>): nat
  {
    if items == [] then 0 else TotalEntries(items[..|items| - 1]) + |items[|items| - 1].1|
  }

  lemma {:induction false} TotalEntriesUpdate(items: seq<(string, seq<FunctionInfo>)>, i: nat, v: (string, seq<FunctionInfo>))
    requires i < |items|
    ensures TotalEntries(items[i := v]) + |items[i].1| == TotalEntries(items) + |v.1|
    decreases |items|
  {
    var n := |items| - 1;
    if i < n {
      assert items[i := v][..n] == items[..n][i := v];
      TotalEntriesUpdate(items[..n], i, v);
    } else {
      assert items[i := v][..n] == items[..n];
    }
  }

  lemma AddFunctionTotal(fm: OrderedMap<seq<FunctionInfo>>, f: FunctionInfo)
    ensures TotalEntries(AddFunction(fm, f).items) == TotalEntries(fm.items) + 1
  {
    var v := Lookup(fm, f.name) + [f];
    match fm.Find(f.name)
    case Some(i) =>
      fm.GetAt(f.name, i);
      TotalEntriesUpdate(fm.items, i, (f.name, v));
    case None =>
      fm.FindNone(f.name);
      assert (fm.items + [(f.name, v)])[..|fm.items|] == fm.items;
  }

  /** Every added function is one more entry. */
  lemma {:induction false} AddFunctionsTotal(fm: OrderedMap<seq<FunctionInfo>>, fs: seq<FunctionInfo>)
    ensures TotalEntries(AddFunctions(fm, fs).items) == TotalEntries(fm.items) + |fs|
    decreases |fs|
  {
    if fs != [] {
      AddFunctionsTotal(fm, fs[..|fs| - 1]);
      AddFunctionTotal(AddFunctions(fm, fs[..|fs| - 1]), fs[|fs| - 1]);
    }
  }

  /** Functions are only ever listed under their own name. */
  lemma {:induction false} AddFunctionsKeyed(fm: OrderedMap<seq<FunctionInfo>>, fs: seq<FunctionInfo>)
    requires FunctionsKeyed(fm)
    ensures FunctionsKeyed(AddFunctions(fm, fs))
    decreases |fs|
  {
    if fs != [] {
      var before := AddFunctions(fm, fs[..|fs| - 1]);
      AddFunctionsKeyed(fm, fs[..|fs| - 1]);
      var f := fs[|fs| - 1];
      var v := Lookup(before, f.name) + [f];
      var after := before.Set(f.name, v);
      forall k | 0 <= k < |Lookup(before, f.name)| ensures Lookup(before, f.name)[k].name == f.name {
        var j :| 0 <= j < |before.items| && before.items[j] == (f.name, before.Get(f.name).value);
      }
      forall i, k | 0 <= i < |after.items| && 0 <= k < |after.items[i].1|
        ensures after.items[i].1[k].name == after.items[i].0
      {
        if after.items[i] != (f.name, v) {
          var j :| 0 <= j < |before.items| && before.items[j] == after.items[i];
        }
      }
    }
  }

  // ----- the whole merge -----

  /** The two dictionaries `_build_index` fills. */
  datatype Merged = Merged(modules: OrderedMap<ModuleInfo>, functions: OrderedMap<seq<FunctionInfo>>)

  function EmptyMerged(): (st: Merged)
    ensures ModulesKeyed(st.modules) && FunctionsKeyed(st.functions)
    ensures st.modules.items == [] && st.functions.items == []
  {
    Merged(Empty(), Empty())
  }

  /** One iteration of the file loop: a file that raised changes nothing. */
  function MergeFile(st: Merged, r: FileResult): Merged
  {
    match r
    case Failed => st
    case Extracted(ms, fs) => Merged(AddEntries(st.modules, Entries(ms, fs)), AddFunctions(st.functions, fs))
  }

  function MergeAll(rs: seq<FileResult>, st: Merged): Merged
  {
    if rs == [] then st else MergeFile(MergeAll(rs[..|rs| - 1], st), rs[|rs| - 1])
  }

  lemma {:induction false} MergeAllAppend(a: seq<FileResult>, b: seq<FileResult>, st: Merged)
    ensures MergeAll(a + b, st) == MergeAll(b, MergeAll(a, st))
    decreases |b|
  {
    if b == [] {
      assert a + b == a;
    } else {
      assert (a + b)[..|a + b| - 1] == a + b[..|b| - 1];
      MergeAllAppend(a, b[..|b| - 1], st);
    }
  }

  /** A file that raised is skipped and the files after it are still merged: the
      result is as if it had not been scanned. */
  lemma FailedFileSkipped(a: seq<FileResult>, b: seq<FileResult>, st: Merged)
    ensures MergeAll(a + [Failed] + b, st) == MergeAll(a + b, st)
  {
    MergeAllAppend(a + [Failed], b, st);
    MergeAllAppend(a, [Failed], st);
    assert [Failed][..0] == [];
    MergeAllAppend(a, b, st);
  }

  /** The records stored by all files that did not raise, in scan order. */
  function AllEntries(rs: seq<FileResult>): seq<ModuleInfo>
  {
    if rs == [] then []
    else AllEntries(rs[..|rs| - 1]) + (match rs[|rs| - 1]
                                       case Failed => []
                                       case Extracted(ms, fs) => Entries(ms, fs))
  }

  /** The functions extracted from all files that did not raise, in scan order and
      then extraction order. */
  function AllFunctions(rs: seq<FileResult>): seq<FunctionInfo>
  {
    if rs == [] then []
    else AllFunctions(rs[..|rs| - 1]) + (match rs[|rs| - 1]
                                         case Failed => []
                                         case Extracted(_, fs) => fs)
  }

  lemma {:induction false} MergeAllIs(rs: seq<FileResult>, st: Merged)
    ensures MergeAll(rs, st).modules == AddEntries(st.modules, AllEntries(rs))
    ensures MergeAll(rs, st).functions == AddFunctions(st.functions, AllFunctions(rs))
    decreases |rs|
  {
    if rs == [] {
      assert AllEntries(rs) == [] && AllFunctions(rs) == [];
    } else {
      var front := rs[..|rs| - 1];
      var prev := MergeAll(front, st);
      MergeAllIs(front, st);
      assert MergeAll(rs, st) == MergeFile(prev, rs[|rs| - 1]);
      match rs[|rs| - 1]
      case Failed =>
        assert AllEntries(rs) == AllEntries(front) + [];
        assert AllEntries(front) + [] == AllEntries(front);
        assert AllFunctions(rs) == AllFunctions(front) + [];
        assert AllFunctions(front) + [] == AllFunctions(front);
      case Extracted(ms, fs) =>
        assert AllEntries(rs) == AllEntries(front) + Entries(ms, fs);
        assert AllFunctions(rs) == AllFunctions(front) + fs;
        AddEntriesAppend(st.modules, AllEntries(front), Entries(ms, fs));
        AddFunctionsAppend(st.functions, AllFunctions(front), fs);
    }
  }

  /** After the merge, a module key holds the record of the last module with that key
      over all files in scan order, with its function list from its own file; a key
      no module has is absent. */
  lemma IndexModules(rs: seq<FileResult>, k: string)
    ensures MergeAll(rs, EmptyMerged()).modules.Get(k) == match LastWithKey(AllEntries(rs), k)
                                                         case Some(i) => Some(AllEntries(rs)[i])
                                                         case None => None
  {
    MergeAllIs(rs, EmptyMerged());
    AddEntriesGet(EmptyMerged().modules, AllEntries(rs), k);
  }

  /** Each stored record of a file is that file's module with, in order, exactly the
      file's functions that carry its module name. */
  lemma EntryFunctions(ms: seq<ModuleInfo>, fs: seq<FunctionInfo>, i: nat, x: FunctionInfo)
    requires i < |ms|
    ensures Entries(ms, fs)[i] == ms[i].(functions := SameModule(fs, ms[i].moduleName))
    ensures x in Entries(ms, fs)[i].functions <==> x in fs && x.moduleName == ms[i].moduleName
  {
    SameModuleMembership(fs, ms[i].moduleName, x);
  }

  /** After the merge, the list under a name holds every function of that name from
      the files that did not raise, in scan order and then extraction order. */
  lemma IndexFunctions(rs: seq<FileResult>, name: string)
    ensures Lookup(MergeAll(rs, EmptyMerged()).functions, name) == SameName(AllFunctions(rs), name)
  {
    MergeAllIs(rs, EmptyMerged());
    AddFunctionsLookup(EmptyMerged().functions, AllFunctions(rs), name);
    assert Lookup(EmptyMerged().functions, name) == [];
  }

  /** The multimap holds exactly as many entries as functions were extracted from the
      files that did not raise. */
  lemma IndexTotal(rs: seq<FileResult>)
    ensures TotalEntries(MergeAll(rs, EmptyMerged()).functions.items) == |AllFunctions(rs)|
  {
    MergeAllIs(rs, EmptyMerged());
    AddFunctionsTotal(EmptyMerged().functions, AllFunctions(rs));
  }

  /** The merged index keeps every module under its own key and every function under
      its own name. */
  lemma IndexKeyed(rs: seq<FileResult>)
    ensures ModulesKeyed(MergeAll(rs, EmptyMerged()).modules)
    ensures FunctionsKeyed(MergeAll(rs, EmptyMerged()).functions)
  {
    MergeAllIs(rs, EmptyMerged());
    AddEntriesKeyed(EmptyMerged().modules, AllEntries(rs));
    AddFunctionsKeyed(EmptyMerged().functions, AllFunctions(rs));
  }

  // ----- `_build_index` and `index_project` -----

  /** `if func.name not in functions: functions[func.name] = []` followed by
      `functions[func.name].append(func)`. */
  method AppendFunction(functions: OrderedMap<seq<FunctionInfo>>, func: FunctionInfo)
    returns (r: OrderedMap<seq<FunctionInfo>>)
    ensures r == AddFunction(functions, func)
  {
    var name := func.name;
    if functions.Get(name).None? {
      var created := functions.Set(name, []);
      assert created.Get(name).value + [func] == [func];
      r := created.Set(name, created.Get(name).value + [func]);
      functions.SetTwice(name, [], [func]);
      assert Lookup(functions, name) + [func] == [func];
    } else {
      var existing := functions.Get(name).value;
      r := functions.Set(name, existing + [func]);
      assert Lookup(functions, name) == existing;
    }
  }

  /** The module loop of `_build_index`: each module of the file gets the file's
      functions of its name and is stored under its module key. */
  method StoreModules(modules: OrderedMap<ModuleInfo>, fileModules: seq<ModuleInfo>, fileFunctions: seq<FunctionInfo>)
    returns (r: OrderedMap<ModuleInfo>)
    ensures r == AddEntries(modules, Entries(fileModules, fileFunctions))
  {
    r := modules;
    var j := 0;
    while j < |fileModules|
      invariant 0 <= j <= |fileModules|
      invariant r == AddEntries(modules, Entries(fileModules[..j], fileFunctions))
    {
      AddEntriesStep(modules, fileModules, fileFunctions, j);
      var m := fileModules[j];
      var moduleFunctions := SameModule(fileFunctions, m.moduleName);
      m := m.(functions := moduleFunctions);
      var moduleKey := if m.address != "" then m.address + "::" + m.moduleName else m.moduleName;
      assert m == ModuleEntry(fileModules[j], fileFunctions) && moduleKey == EntryKey(m);
      r := r.Set(moduleKey, m);
      j := j + 1;
    }
    assert fileModules[..j] == fileModules;
  }

  /** The function loop of `_build_index`: each function of the file is appended to
      the list under its name. */
  method StoreFunctions(functions: OrderedMap<seq<FunctionInfo>>, fileFunctions: seq<FunctionInfo>)
    returns (r: OrderedMap<seq<FunctionInfo>>)
    ensures r == AddFunctions(functions, fileFunctions)
  {
    r := functions;
    var k := 0;
    while k < |fileFunctions|
      invariant 0 <= k <= |fileFunctions|
      invariant r == AddFunctions(functions, fileFunctions[..k])
    {
      AddFunctionsStep(functions, fileFunctions, k);
      r := AppendFunction(r, fileFunctions[k]);
      k := k + 1;
    }
    assert fileFunctions[..k] == fileFunctions;
  }

  /** The body of the file loop of `_build_index`: a file that raised is skipped,
      otherwise its modules and then its functions are stored. */
  method MergeSourceFile(modules: OrderedMap<ModuleInfo>, functions: OrderedMap<seq<FunctionInfo>>, file: SourceFile)
    returns (newModules: OrderedMap<ModuleInfo>, newFunctions: OrderedMap<seq<FunctionInfo>>)
    ensures Merged(newModules, newFunctions) == MergeFile(Merged(modules, functions), ExtractFile(file))
  {
    match file.parsed {
      case None =>
        // Reading or parsing raised: the file is skipped.
        newModules, newFunctions := modules, functions;
      case Some(p) =>
        var fileModules := ExtractModules(p.root, file.path, p.text);
        var fileFunctions := ExtractFunctions(p.root, file.path, p.text);
        newModules := StoreModules(modules, fileModules, fileFunctions);
        newFunctions := StoreFunctions(functions, fileFunctions);
    }
  }

  /** `_build_index`. */
  method BuildIndex(files: seq<SourceFile>)
    returns (modules: OrderedMap<ModuleInfo>, functions: OrderedMap<seq<FunctionInfo>>)
    ensures Merged(modules, functions) == MergeAll(ExtractAll(files), EmptyMerged())
  {
    modules := Empty();
    functions := Empty();
    ghost var rs := ExtractAll(files);
    var i := 0;
    while i < |files|
      invariant 0 <= i <= |files|
      invariant Merged(modules, functions) == MergeAll(rs[..i], EmptyMerged())
    {
      assert rs[..i + 1][..i] == rs[..i];
      modules, functions := MergeSourceFile(modules, functions, files[i]);
      i := i + 1;
    }
    assert rs[..i] == rs;
  }

  /** `index_project` once the project path has been resolved and checked, the
      manifest read and the files scanned: path, package name and dependencies are
      carried into the index unchanged. */
  method IndexProject(projectPath: string, packageName: string, dependencies: seq<DependencyInfo>,
                      files: seq<SourceFile>)
    returns (index: ProjectIndex)
    ensures index.projectPath == projectPath && index.packageName == packageName
    ensures index.dependencies == dependencies
    ensures Merged(index.modules, index.functions) == MergeAll(ExtractAll(files), EmptyMerged())
  {
    var modules, functions := BuildIndex(files);
    index := ProjectIndex(projectPath, packageName, modules, functions, dependencies);
  }
}
