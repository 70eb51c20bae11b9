/**
 * The registry of output files of a run (src/DataFileList.cpp): data files,
 * text output files (CpptrajFile) and output trajectories. Each add routine
 * rejects a name already taken in another list, so a file name names at
 * most one output file. Pointers handed out by the registry are modelled as
 * indices into the list that holds the object. File set-up, opening and
 * writing are external: their outcomes are parameters, and the calls that
 * act on a file are recorded, in order, in `ioLog`.
 */
module DataFileRegistry {
  import opened Wrappers

  /** DataFile::DataFormatType; UnknownData asks for detection. */
  datatype DataFormat = UnknownData | DataFormatCode(code: nat)

  /** TrajectoryFile::TrajFormatType; UnknownTraj asks for detection. */
  datatype TrajFormat = UnknownTraj | AmberTraj | TrajFormatCode(code: nat)

  /** Kind of a text output file. */
  datatype CFtype = Text | Pdb

  /** A data file: full name, format, and whether WriteAllDF should write it. */
  datatype DataFileRec = DataFileRec(name: string, ftype: DataFormat, write: bool)

  /** Description and kind kept beside each text output file. */
  datatype CFstruct = CFstruct(descrip: string, ctype: CFtype)

  /** An output trajectory: full name and the format it was set up with. */
  datatype TrajRec = TrajRec(name: string, format: TrajFormat)

  /** Calls the registry makes on the files it holds. */
  datatype Event =
    | WroteData(name: string)                       // DataFile::WriteDataOut
    | ProcessedArgs(name: string, args: seq<string>) // DataFile::ProcessArgs
    | ClosedText(name: string)                      // CpptrajFile::CloseFile
    | EndedTraj(name: string)                       // Trajout_Single::EndTraj

  /** The registry's lists as one value, so that operations can be specified as functions. */
  datatype Lists = Lists(files: seq<DataFileRec>, cfNames: seq<string>, cfData: seq<CFstruct>,
                         trajs: seq<TrajRec>, log: seq<Event>)

  /** Result of an add: the new lists and the handle returned (None for a null pointer). */
  datatype Step = Step(next: Lists, handle: Option<nat>)

  // ---------------------------------------------------------------------
  // Ensemble suffix

  function Digit(d: nat): char
    requires d < 10
  {
    ('0' as int + d) as char
  }

  function DigitValue(c: char): nat
  {
    if '0' <= c <= '9' then c as int - '0' as int else 0
  }

  /** Decimal digits of n, most significant first. */
  function NatToString(n: nat): (s: string)
    ensures s != []
  {
    if n < 10 then [Digit(n)] else NatToString(n / 10) + [Digit(n % 10)]
  }

  /** Value of a string of decimal digits. */
  function ParseNat(s: string): nat
  {
    if s == [] then 0 else 10 * ParseNat(s[..|s| - 1]) + DigitValue(s[|s| - 1])
  }

  /** Reading the decimal digits back gives the number. */
  lemma {:induction false} ParseNatToString(n: nat)
    ensures ParseNat(NatToString(n)) == n
  {
    var s := NatToString(n);
    if n >= 10 {
      assert s[..|s| - 1] == NatToString(n / 10);
      ParseNatToString(n / 10);
    }
  }

  /** Decimal text of an integer, with a leading '-' when negative. */
  function IntToString(i: int): (s: string)
  {
    if i < 0 then "-" + NatToString(-i) else NatToString(i)
  }

  /** The name a file is registered under: with an ensemble number set (anything but -1), "." and the number are appended. */
  function EnsembleName(name: string, ensembleNum: int): string
  {
    if ensembleNum == -1 then name else name + "." + IntToString(ensembleNum)
  }

  /**
   * Without an ensemble number the name is kept; with one, the name is
   * extended by a suffix that starts with '.' and, for a non-negative
   * number, reads back as that number. A non-empty name stays non-empty.
   */
  lemma {:induction false} EnsembleNameSuffix(name: string, ensembleNum: int)
    ensures ensembleNum == -1 ==> EnsembleName(name, ensembleNum) == name
    ensures ensembleNum != -1 ==>
      var r := EnsembleName(name, ensembleNum);
      |r| > |name| + 1 && r[..|name|] == name && r[|name|] == '.'
    ensures ensembleNum >= 0 ==>
      ParseNat(EnsembleName(name, ensembleNum)[|name| + 1..]) == ensembleNum
    ensures name != "" ==> EnsembleName(name, ensembleNum) != ""
  {
    if ensembleNum != -1 {
      var r := EnsembleName(name, ensembleNum);
      assert r == name + ("." + IntToString(ensembleNum));
      if ensembleNum >= 0 {
        assert r[|name| + 1..] == NatToString(ensembleNum);
        ParseNatToString(ensembleNum);
      }
    }
  }

  /** Distinct names stay distinct after the ensemble suffix is applied. */
  lemma {:induction false} EnsembleNameInjective(a: string, b: string, ensembleNum: int)
    requires EnsembleName(a, ensembleNum) == EnsembleName(b, ensembleNum)
    ensures a == b
  {
    if ensembleNum != -1 {
      var suffix := "." + IntToString(ensembleNum);
      assert EnsembleName(a, ensembleNum) == a + suffix;
      assert EnsembleName(b, ensembleNum) == b + suffix;
      assert |a| == |b|;
      assert a == (a + suffix)[..|a|];
      assert b == (b + suffix)[..|b|];
    }
  }

  // ---------------------------------------------------------------------
  // Names and lookup

  function DataNames(fs: seq<DataFileRec>): (ns: seq<string>)
  {
    seq(|fs|, i requires 0 <= i < |fs| => fs[i].name)
  }

  function TrajNames(ts: seq<TrajRec>): (ns: seq<string>)
  {
    seq(|ts|, i requires 0 <= i < |ts| => ts[i].name)
  }

  lemma DataNamesAppend(fs: seq<DataFileRec>, f: DataFileRec)
    ensures DataNames(fs + [f]) == DataNames(fs) + [f.name]
  {
    assert forall i :: 0 <= i < |fs| ==> (fs + [f])[i] == fs[i];
  }

  lemma TrajNamesAppend(ts: seq<TrajRec>, t: TrajRec)
    ensures TrajNames(ts + [t]) == TrajNames(ts) + [t.name]
  {
    assert forall i :: 0 <= i < |ts| ==> (ts + [t])[i] == ts[i];
  }

  /** Index of the first occurrence of n in s. */
  function IndexOf(s: seq<string>, n: string): (r: Option<nat>)
    ensures r.Some? ==> r.value < |s| && s[r.value] == n
  {
    if s == [] then None
    else if s[0] == n then Some(0)
    else match IndexOf(s[1..], n)
      case None => None
      case Some(k) => Some(k + 1)
  }

  /** Lookup by full name as GetDataFile and GetCpptrajFileIdx do it: an empty name finds nothing. */
  function Lookup(s: seq<string>, n: string): Option<nat>
  {
    if n == "" then None else IndexOf(s, n)
  }

  /** IndexOf finds something exactly when the name occurs, and then it finds the first occurrence. */
  lemma {:induction false} IndexOfIsFirst(s: seq<string>, n: string)
    ensures IndexOf(s, n).Some? <==> n in s
    ensures IndexOf(s, n).Some? ==> n !in s[..IndexOf(s, n).value]
  {
    if s != [] && s[0] != n {
      IndexOfIsFirst(s[1..], n);
      assert s == [s[0]] + s[1..];
      match IndexOf(s[1..], n)
      case None =>
      case Some(k) =>
        assert s[..k + 1] == [s[0]] + s[1..][..k];
    }
  }

  /** A position holding the name, with no earlier occurrence, is what IndexOf returns. */
  lemma {:induction false} IndexOfAt(s: seq<string>, n: string, i: nat)
    requires i < |s| && s[i] == n && n !in s[..i]
    ensures IndexOf(s, n) == Some(i)
  {
    IndexOfIsFirst(s, n);
    assert n in s;
  }

  // ---------------------------------------------------------------------
  // The registry invariant

  /** No non-empty name occurs twice (empty names stand for standard output and may repeat). */
  ghost predicate UniqueNames(s: seq<string>)
  {
    forall i, j :: 0 <= i < j < |s| && s[i] != "" ==> s[i] != s[j]
  }

  ghost predicate Disjoint(a: seq<string>, b: seq<string>)
  {
    forall n :: n in a ==> n !in b
  }

  /**
   * What every add keeps: the text-file data runs beside the text files;
   * data files and trajectories have non-empty names; no name occurs twice
   * in a list; and no name is in two lists.
   */
  ghost predicate Registry(s: Lists)
  {
    |s.cfNames| == |s.cfData|
    && "" !in DataNames(s.files) && "" !in TrajNames(s.trajs)
    && UniqueNames(DataNames(s.files)) && UniqueNames(s.cfNames) && UniqueNames(TrajNames(s.trajs))
    && Disjoint(DataNames(s.files), s.cfNames)
    && Disjoint(DataNames(s.files), TrajNames(s.trajs))
    && Disjoint(s.cfNames, TrajNames(s.trajs))
  }

  lemma {:induction false} UniqueAppend(s: seq<string>, n: string)
    requires UniqueNames(s) && (n == "" || n !in s)
    ensures UniqueNames(s + [n])
  {
    var t := s + [n];
    forall i, j | 0 <= i < j < |t| && t[i] != ""
      ensures t[i] != t[j]
    {
      if j == |s| {
        assert t[i] == s[i];
      } else {
        assert t[i] == s[i] && t[j] == s[j];
      }
    }
  }

  /** In a list without repeated names, any position holding a non-empty name is where IndexOf finds it. */
  lemma {:induction false} UniqueIndex(s: seq<string>, n: string, i: nat)
    requires UniqueNames(s) && n != "" && i < |s| && s[i] == n
    ensures IndexOf(s, n) == Some(i)
  {
    IndexOfIsFirst(s, n);
    assert n in s;
  }

  /** Appending a data file whose name is non-empty and free everywhere keeps the invariant. */
  lemma {:induction false} RegistryAppendData(s: Lists, f: DataFileRec)
    requires Registry(s)
    requires f.name != "" && f.name !in DataNames(s.files) && f.name !in s.cfNames && f.name !in TrajNames(s.trajs)
    ensures Registry(s.(files := s.files + [f]))
  {
    DataNamesAppend(s.files, f);
    UniqueAppend(DataNames(s.files), f.name);
  }

  /** Appending a text file whose name is empty, or free everywhere, keeps the invariant. */
  lemma {:induction false} RegistryAppendText(s: Lists, name: string, c: CFstruct)
    requires Registry(s)
    requires name == "" || (name !in DataNames(s.files) && name !in s.cfNames && name !in TrajNames(s.trajs))
    ensures Registry(s.(cfNames := s.cfNames + [name], cfData := s.cfData + [c]))
  {
    UniqueAppend(s.cfNames, name);
  }

  /** Appending a trajectory whose name is non-empty and free everywhere keeps the invariant. */
  lemma {:induction false} RegistryAppendTraj(s: Lists, t: TrajRec)
    requires Registry(s)
    requires t.name != "" && t.name !in DataNames(s.files) && t.name !in s.cfNames && t.name !in TrajNames(s.trajs)
    ensures Registry(s.(trajs := s.trajs + [t]))
  {
    TrajNamesAppend(s.trajs, t);
    UniqueAppend(TrajNames(s.trajs), t.name);
  }

  // ---------------------------------------------------------------------
  // Adding files

  /** Data format: the requested one, else the one named in the arguments, else the one the extension implies. */
  function FirstKnown(typeIn: DataFormat, argFormat: DataFormat, extFormat: DataFormat): DataFormat
  {
    if typeIn != UnknownData then typeIn else if argFormat != UnknownData then argFormat else extFormat
  }

  /** Trajectory format chosen the same way, falling back to an Amber trajectory. */
  function TrajFormatOf(fmtIn: TrajFormat, argFormat: TrajFormat, extFormat: TrajFormat): (r: TrajFormat)
    ensures r != UnknownTraj
    ensures fmtIn == UnknownTraj && argFormat == UnknownTraj && extFormat == UnknownTraj ==> r == AmberTraj
    ensures fmtIn != UnknownTraj ==> r == fmtIn
  {
    if fmtIn != UnknownTraj then fmtIn
    else if argFormat != UnknownTraj then argFormat
    else if extFormat != UnknownTraj then extFormat
    else AmberTraj
  }

  function ArgsEvent(name: string, args: seq<string>): seq<Event>
  {
    if args == [] then [] else [ProcessedArgs(name, args)]
  }

  /**
   * DataFileList::AddDataFile. `argFormat` and `extFormat` are the formats
   * that DataFile::GetFormatFromArg and DataFile::GetTypeFromExtension report
   * for the arguments and the name's extension; `setup` is the outcome of
   * DataFile::SetupDatafile: the format the new file was set up with, or
   * None when set-up fails.
   */
  function AddDataFileSpec(s: Lists, ensembleNum: int, nameIn: string, args: seq<string>, typeIn: DataFormat,
                           argFormat: DataFormat, extFormat: DataFormat, setup: Option<DataFormat>): Step
  {
    if nameIn == "" then Step(s, None)
    else
      var fname := EnsembleName(nameIn, ensembleNum);
      var ftype := FirstKnown(typeIn, argFormat, extFormat);
      if Lookup(s.cfNames, fname).Some? || IndexOf(TrajNames(s.trajs), fname).Some? then Step(s, None)
      else match Lookup(DataNames(s.files), fname)
        case None =>
          if setup.None? then Step(s, None)
          else Step(s.(files := s.files + [DataFileRec(fname, setup.value, true)]), Some(|s.files|))
        case Some(i) =>
          if ftype != UnknownData && ftype != s.files[i].ftype then Step(s, None)
          else Step(s.(log := s.log + ArgsEvent(fname, args)), Some(i))
  }

  /** Makes a new text output file when opening it succeeds. */
  function CreateText(s: Lists, name: string, descrip: string, typeIn: CFtype, openOk: bool): Step
  {
    if !openOk then Step(s, None)
    else Step(s.(cfNames := s.cfNames + [name], cfData := s.cfData + [CFstruct(descrip, typeIn)]), Some(|s.cfNames|))
  }

  /** The description is replaced only by a non-empty one. */
  function UpdateDescrip(c: CFstruct, descrip: string): CFstruct
  {
    if descrip == "" then c else c.(descrip := descrip)
  }

  /**
   * DataFileList::AddCpptrajFile. An empty name means standard output
   * when `allowStdout`; `openOk` is the outcome of CpptrajFile::OpenWrite.
   */
  function AddCpptrajFileSpec(s: Lists, ensembleNum: int, nameIn: string, descrip: string, typeIn: CFtype,
                              allowStdout: bool, openOk: bool): Step
    requires |s.cfNames| == |s.cfData|
  {
    if nameIn == "" then
      if allowStdout then CreateText(s, "", descrip, typeIn, openOk) else Step(s, None)
    else
      var name := EnsembleName(nameIn, ensembleNum);
      if Lookup(DataNames(s.files), name).Some? || IndexOf(TrajNames(s.trajs), name).Some? then Step(s, None)
      else match Lookup(s.cfNames, name)
        case None => CreateText(s, name, descrip, typeIn, openOk)
        case Some(i) =>
          if typeIn != s.cfData[i].ctype then Step(s, None)
          else Step(s.(cfData := s.cfData[i := UpdateDescrip(s.cfData[i], descrip)]), Some(i))
  }

  /**
   * DataFileList::AddOutputTraj. The formats are those reported for the
   * arguments and the extension; `initOk` is the outcome of
   * Trajout_Single::InitTrajWrite.
   */
  function AddOutputTrajSpec(s: Lists, ensembleNum: int, fnameIn: string, fmtIn: TrajFormat,
                             argFormat: TrajFormat, extFormat: TrajFormat, initOk: bool): Step
  {
    if fnameIn == "" then Step(s, None)
    else
      var ftype := TrajFormatOf(fmtIn, argFormat, extFormat);
      var fname := EnsembleName(fnameIn, ensembleNum);
      if Lookup(s.cfNames, fname).Some? || Lookup(DataNames(s.files), fname).Some?
         || IndexOf(TrajNames(s.trajs), fname).Some? || !initOk
      then Step(s, None)
      else Step(s.(trajs := s.trajs + [TrajRec(fname, ftype)]), Some(|s.trajs|))
  }

  /** Every AddDataFile keeps the registry invariant. */
  lemma {:induction false} AddDataFileKeepsRegistry(s: Lists, ensembleNum: int, nameIn: string, args: seq<string>,
                                                   typeIn: DataFormat, argFormat: DataFormat,
                                                   extFormat: DataFormat, setup: Option<DataFormat>)
    requires Registry(s)
    ensures Registry(AddDataFileSpec(s, ensembleNum, nameIn, args, typeIn, argFormat, extFormat, setup).next)
  {
    var st := AddDataFileSpec(s, ensembleNum, nameIn, args, typeIn, argFormat, extFormat, setup);
    if st.next.files != s.files {
      var fname := EnsembleName(nameIn, ensembleNum);
      EnsembleNameSuffix(nameIn, ensembleNum);
      IndexOfIsFirst(s.cfNames, fname);
      IndexOfIsFirst(TrajNames(s.trajs), fname);
      IndexOfIsFirst(DataNames(s.files), fname);
      RegistryAppendData(s, DataFileRec(fname, setup.value, true));
    }
  }

  /**
   * What AddDataFile returns: null for an empty name or a name held by a
   * text file or trajectory, with nothing changed; an existing data file of
   * that name, without growing the list, unless a known format was asked
   * for that differs from the file's; otherwise a new file at the end of
   * the list when set-up succeeds.
   */
  lemma {:induction false} AddDataFileOutcome(s: Lists, ensembleNum: int, nameIn: string, args: seq<string>,
                                             typeIn: DataFormat, argFormat: DataFormat,
                                             extFormat: DataFormat, setup: Option<DataFormat>)
    requires Registry(s)
    ensures var st := AddDataFileSpec(s, ensembleNum, nameIn, args, typeIn, argFormat, extFormat, setup);
            var fname := EnsembleName(nameIn, ensembleNum);
            var ftype := FirstKnown(typeIn, argFormat, extFormat);
            && (nameIn == "" ==> st == Step(s, None))
            && (nameIn != "" && (fname in s.cfNames || fname in TrajNames(s.trajs)) ==> st == Step(s, None))
            && (st.handle.Some? ==> st.handle.value < |st.next.files| && st.next.files[st.handle.value].name == fname)
            && (st.next.cfNames == s.cfNames && st.next.cfData == s.cfData && st.next.trajs == s.trajs)
            && (nameIn != "" && fname !in s.cfNames && fname !in TrajNames(s.trajs) && fname in DataNames(s.files) ==>
                  st.next.files == s.files
                  && forall i :: 0 <= i < |s.files| && s.files[i].name == fname ==>
                       (st.handle.None? <==> ftype != UnknownData && ftype != s.files[i].ftype))
            && (nameIn != "" && fname !in s.cfNames && fname !in TrajNames(s.trajs) && fname !in DataNames(s.files) ==>
                  (st.handle.Some? <==> setup.Some?)
                  && (setup.Some? ==> st.next.files == s.files + [DataFileRec(fname, setup.value, true)]
                                      && st.handle == Some(|s.files|))
                  && (setup.None? ==> st.next == s))
  {
    var fname := EnsembleName(nameIn, ensembleNum);
    EnsembleNameSuffix(nameIn, ensembleNum);
    IndexOfIsFirst(s.cfNames, fname);
    IndexOfIsFirst(TrajNames(s.trajs), fname);
    IndexOfIsFirst(DataNames(s.files), fname);
    if nameIn != "" && fname !in s.cfNames && fname !in TrajNames(s.trajs) && fname !in DataNames(s.files) && setup.Some? {
      DataNamesAppend(s.files, DataFileRec(fname, setup.value, true));
    }
    if nameIn != "" {
      forall i | 0 <= i < |s.files| && s.files[i].name == fname
        ensures IndexOf(DataNames(s.files), fname) == Some(i)
      {
        UniqueIndex(DataNames(s.files), fname, i);
      }
    }
  }

  /**
   * Get-or-create: once a name has been added, adding it again, asking for
   * no format or the file's own, returns the same file and leaves the data
   * file list as it is.
   */
  lemma {:induction false} AddDataFileTwice(s: Lists, ensembleNum: int, nameIn: string, args: seq<string>,
                                           typeIn: DataFormat, argFormat: DataFormat,
                                           extFormat: DataFormat, setup: Option<DataFormat>,
                                           args2: seq<string>, typeIn2: DataFormat, argFormat2: DataFormat,
                                           extFormat2: DataFormat, setup2: Option<DataFormat>)
    requires Registry(s)
    requires AddDataFileSpec(s, ensembleNum, nameIn, args, typeIn, argFormat, extFormat, setup).handle.Some?
    ensures var st := AddDataFileSpec(s, ensembleNum, nameIn, args, typeIn, argFormat, extFormat, setup);
            var ftype2 := FirstKnown(typeIn2, argFormat2, extFormat2);
            (ftype2 == UnknownData || ftype2 == st.next.files[st.handle.value].ftype) ==>
              var st2 := AddDataFileSpec(st.next, ensembleNum, nameIn, args2, typeIn2, argFormat2, extFormat2, setup2);
              st2.handle == st.handle && st2.next.files == st.next.files
  {
    var st := AddDataFileSpec(s, ensembleNum, nameIn, args, typeIn, argFormat, extFormat, setup);
    var fname := EnsembleName(nameIn, ensembleNum);
    EnsembleNameSuffix(nameIn, ensembleNum);
    AddDataFileOutcome(s, ensembleNum, nameIn, args, typeIn, argFormat, extFormat, setup);
    AddDataFileKeepsRegistry(s, ensembleNum, nameIn, args, typeIn, argFormat, extFormat, setup);
    var i := st.handle.value;
    var ns := DataNames(st.next.files);
    assert ns[i] == fname;
    UniqueIndex(ns, fname, i);
    IndexOfIsFirst(st.next.cfNames, fname);
    IndexOfIsFirst(TrajNames(st.next.trajs), fname);
  }

  /** Every AddCpptrajFile keeps the registry invariant. */
  lemma {:induction false} AddCpptrajFileKeepsRegistry(s: Lists, ensembleNum: int, nameIn: string, descrip: string,
                                                      typeIn: CFtype, allowStdout: bool, openOk: bool)
    requires Registry(s)
    ensures Registry(AddCpptrajFileSpec(s, ensembleNum, nameIn, descrip, typeIn, allowStdout, openOk).next)
  {
    var st := AddCpptrajFileSpec(s, ensembleNum, nameIn, descrip, typeIn, allowStdout, openOk);
    if |st.next.cfNames| != |s.cfNames| {
      if nameIn == "" {
        RegistryAppendText(s, "", CFstruct(descrip, typeIn));
      } else {
        var name := EnsembleName(nameIn, ensembleNum);
        EnsembleNameSuffix(nameIn, ensembleNum);
        IndexOfIsFirst(s.cfNames, name);
        IndexOfIsFirst(TrajNames(s.trajs), name);
        IndexOfIsFirst(DataNames(s.files), name);
        RegistryAppendText(s, name, CFstruct(descrip, typeIn));
      }
    }
  }

  /**
   * What AddCpptrajFile returns: null for an empty name unless standard
   * output is allowed, and for a name held by a data file or trajectory;
   * an existing text file of that name, whose type must match and whose
   * description changes only to a non-empty one; otherwise a new file,
   * added with its data, when opening succeeds.
   */
  lemma {:induction false} AddCpptrajFileOutcome(s: Lists, ensembleNum: int, nameIn: string, descrip: string,
                                                typeIn: CFtype, allowStdout: bool, openOk: bool)
    requires Registry(s)
    ensures var st := AddCpptrajFileSpec(s, ensembleNum, nameIn, descrip, typeIn, allowStdout, openOk);
            var name := EnsembleName(nameIn, ensembleNum);
            && (nameIn == "" && !allowStdout ==> st == Step(s, None))
            && (nameIn != "" && (name in DataNames(s.files) || name in TrajNames(s.trajs)) ==> st == Step(s, None))
            && st.next.files == s.files && st.next.trajs == s.trajs && st.next.log == s.log
            && |st.next.cfNames| == |st.next.cfData|
            && (st.handle.Some? ==> st.handle.value < |st.next.cfNames|
                                     && st.next.cfNames[st.handle.value] == (if nameIn == "" then "" else name)
                                     && st.next.cfData[st.handle.value].ctype == typeIn)
            && (nameIn != "" && name !in DataNames(s.files) && name !in TrajNames(s.trajs) && name in s.cfNames ==>
                  st.next.cfNames == s.cfNames
                  && forall i :: 0 <= i < |s.cfNames| && s.cfNames[i] == name ==>
                       ((st.handle.Some? <==> typeIn == s.cfData[i].ctype)
                        && (st.handle.Some? ==>
                              st.handle == Some(i)
                              && st.next.cfData[i].descrip == (if descrip == "" then s.cfData[i].descrip else descrip)
                              && forall j :: 0 <= j < |s.cfData| && j != i ==> st.next.cfData[j] == s.cfData[j])))
            && ((nameIn == "" && allowStdout) || (nameIn != "" && name !in DataNames(s.files) && name !in TrajNames(s.trajs) && name !in s.cfNames) ==>
                  (st.handle.Some? <==> openOk)
                  && (openOk ==> st.handle == Some(|s.cfNames|) && |st.next.cfNames| == |s.cfNames| + 1
                                 && st.next.cfData == s.cfData + [CFstruct(descrip, typeIn)])
                  && (!openOk ==> st.next == s))
  {
    var name := EnsembleName(nameIn, ensembleNum);
    EnsembleNameSuffix(nameIn, ensembleNum);
    IndexOfIsFirst(s.cfNames, name);
    IndexOfIsFirst(TrajNames(s.trajs), name);
    IndexOfIsFirst(DataNames(s.files), name);
    if nameIn != "" {
      forall i | 0 <= i < |s.cfNames| && s.cfNames[i] == name
        ensures IndexOf(s.cfNames, name) == Some(i)
      {
        UniqueIndex(s.cfNames, name, i);
      }
    }
  }

  /** Every AddOutputTraj keeps the registry invariant. */
  lemma {:induction false} AddOutputTrajKeepsRegistry(s: Lists, ensembleNum: int, fnameIn: string, fmtIn: TrajFormat,
                                                     argFormat: TrajFormat, extFormat: TrajFormat, initOk: bool)
    requires Registry(s)
    ensures Registry(AddOutputTrajSpec(s, ensembleNum, fnameIn, fmtIn, argFormat, extFormat, initOk).next)
  {
    var st := AddOutputTrajSpec(s, ensembleNum, fnameIn, fmtIn, argFormat, extFormat, initOk);
    if st.handle.Some? {
      var fname := EnsembleName(fnameIn, ensembleNum);
      EnsembleNameSuffix(fnameIn, ensembleNum);
      IndexOfIsFirst(s.cfNames, fname);
      IndexOfIsFirst(TrajNames(s.trajs), fname);
      IndexOfIsFirst(DataNames(s.files), fname);
      RegistryAppendTraj(s, TrajRec(fname, TrajFormatOf(fmtIn, argFormat, extFormat)));
    }
  }

  /**
   * AddOutputTraj never returns an existing file: it fails when the name
   * is in any of the three lists, and otherwise appends exactly one
   * trajectory when initialisation succeeds, in the detected format or,
   * failing detection, as an Amber trajectory.
   */
  lemma {:induction false} AddOutputTrajOutcome(s: Lists, ensembleNum: int, fnameIn: string, fmtIn: TrajFormat,
                                               argFormat: TrajFormat, extFormat: TrajFormat, initOk: bool)
    requires Registry(s)
    ensures var st := AddOutputTrajSpec(s, ensembleNum, fnameIn, fmtIn, argFormat, extFormat, initOk);
            var fname := EnsembleName(fnameIn, ensembleNum);
            && st.next.files == s.files && st.next.cfNames == s.cfNames && st.next.cfData == s.cfData && st.next.log == s.log
            && (fnameIn == "" || fname in s.cfNames || fname in DataNames(s.files) || fname in TrajNames(s.trajs) || !initOk ==>
                  st == Step(s, None))
            && (st.handle.Some? <==>
                  fnameIn != "" && fname !in s.cfNames && fname !in DataNames(s.files) && fname !in TrajNames(s.trajs) && initOk)
            && (st.handle.Some? ==>
                  st.handle == Some(|s.trajs|)
                  && st.next.trajs == s.trajs + [TrajRec(fname, TrajFormatOf(fmtIn, argFormat, extFormat))]
                  && st.next.trajs[|s.trajs|].format != UnknownTraj
                  && (fmtIn == UnknownTraj && argFormat == UnknownTraj && extFormat == UnknownTraj ==>
                        st.next.trajs[|s.trajs|].format == AmberTraj))
  {
    var fname := EnsembleName(fnameIn, ensembleNum);
    EnsembleNameSuffix(fnameIn, ensembleNum);
    IndexOfIsFirst(s.cfNames, fname);
    IndexOfIsFirst(TrajNames(s.trajs), fname);
    IndexOfIsFirst(DataNames(s.files), fname);
  }

  /** A second AddOutputTraj of a name that was just added fails. */
  lemma {:induction false} AddOutputTrajTwice(s: Lists, ensembleNum: int, fnameIn: string, fmtIn: TrajFormat,
                                             argFormat: TrajFormat, extFormat: TrajFormat, initOk: bool,
                                             fmtIn2: TrajFormat, argFormat2: TrajFormat, extFormat2: TrajFormat,
                                             initOk2: bool)
    requires Registry(s)
    requires AddOutputTrajSpec(s, ensembleNum, fnameIn, fmtIn, argFormat, extFormat, initOk).handle.Some?
    ensures var st := AddOutputTrajSpec(s, ensembleNum, fnameIn, fmtIn, argFormat, extFormat, initOk);
            AddOutputTrajSpec(st.next, ensembleNum, fnameIn, fmtIn2, argFormat2, extFormat2, initOk2) == Step(st.next, None)
  {
    var st := AddOutputTrajSpec(s, ensembleNum, fnameIn, fmtIn, argFormat, extFormat, initOk);
    var fname := EnsembleName(fnameIn, ensembleNum);
    AddOutputTrajOutcome(s, ensembleNum, fnameIn, fmtIn, argFormat, extFormat, initOk);
    TrajNamesAppend(s.trajs, TrajRec(fname, TrajFormatOf(fmtIn, argFormat, extFormat)));
    assert fname in TrajNames(st.next.trajs);
    IndexOfIsFirst(TrajNames(st.next.trajs), fname);
  }

  // ---------------------------------------------------------------------
  // Write flags and closing

  /** Every data file with its write flag set to b. */
  function WithFlags(fs: seq<DataFileRec>, b: bool): seq<DataFileRec>
  {
    seq(|fs|, i requires 0 <= i < |fs| => fs[i].(write := b))
  }

  /** The WriteDataOut calls WriteAllDF makes: one per flagged file, in list order. */
  function Written(fs: seq<DataFileRec>): seq<Event>
  {
    if fs == [] then []
    else Written(fs[..|fs| - 1]) + (if fs[|fs| - 1].write then [WroteData(fs[|fs| - 1].name)] else [])
  }

  /** The CloseFile calls Clear makes, one per text file, in list order. */
  function Closed(names: seq<string>): seq<Event>
  {
    if names == [] then [] else Closed(names[..|names| - 1]) + [ClosedText(names[|names| - 1])]
  }

  /** The EndTraj calls CloseOutputTraj makes, one per trajectory, in list order. */
  function Ended(names: seq<string>): seq<Event>
  {
    if names == [] then [] else Ended(names[..|names| - 1]) + [EndedTraj(names[|names| - 1])]
  }

  /** Changing write flags changes no name, so the invariant is kept. */
  lemma {:induction false} FlagsKeepRegistry(s: Lists, b: bool)
    requires Registry(s)
    ensures Registry(s.(files := WithFlags(s.files, b)))
  {
    assert DataNames(WithFlags(s.files, b)) == DataNames(s.files);
  }

  /** WriteAllDF only writes data files of the list. */
  lemma {:induction false} WrittenOnlyListed(fs: seq<DataFileRec>)
    ensures forall e :: e in Written(fs) ==> e.WroteData? && e.name in DataNames(fs)
  {
    if fs != [] {
      var p := fs[..|fs| - 1];
      WrittenOnlyListed(p);
      assert forall k :: 0 <= k < |p| ==> DataNames(p)[k] == DataNames(fs)[k];
      assert DataNames(fs)[|fs| - 1] == fs[|fs| - 1].name;
    }
  }

  /** With unique names, WriteAllDF writes each flagged file exactly once and no other file. */
  lemma {:induction false} WrittenExactlyFlagged(fs: seq<DataFileRec>)
    requires UniqueNames(DataNames(fs)) && "" !in DataNames(fs)
    ensures forall i :: 0 <= i < |fs| ==>
      multiset(Written(fs))[WroteData(fs[i].name)] == if fs[i].write then 1 else 0
  {
    if fs != [] {
      var p := fs[..|fs| - 1];
      var last := fs[|fs| - 1];
      var ns := DataNames(fs);
      assert DataNames(p) == ns[..|fs| - 1];
      assert UniqueNames(DataNames(p));
      WrittenExactlyFlagged(p);
      WrittenOnlyListed(p);
      forall i | 0 <= i < |fs|
        ensures multiset(Written(fs))[WroteData(fs[i].name)] == if fs[i].write then 1 else 0
      {
        if i < |p| {
          assert ns[i] == fs[i].name && ns[|fs| - 1] == last.name;
          assert fs[i].name != last.name;
          assert p[i] == fs[i];
        } else {
          assert last.name !in DataNames(p) by {
            forall k | 0 <= k < |p| ensures DataNames(p)[k] != last.name {
              assert DataNames(p)[k] == ns[k];
            }
          }
          assert WroteData(last.name) !in Written(p);
        }
      }
    }
  }

  /** After ResetWriteStatus, WriteAllDF writes every file, in list order. */
  lemma {:induction false} ResetThenWriteAll(fs: seq<DataFileRec>)
    ensures Written(WithFlags(fs, true)) == seq(|fs|, i requires 0 <= i < |fs| => WroteData(fs[i].name))
  {
    if fs != [] {
      var p := fs[..|fs| - 1];
      assert WithFlags(fs, true)[..|fs| - 1] == WithFlags(p, true);
      ResetThenWriteAll(p);
    }
  }

  /** Once WriteAllDF has run, running it again writes nothing. */
  lemma {:induction false} WriteAllTwiceWritesNothing(fs: seq<DataFileRec>)
    ensures Written(WithFlags(fs, false)) == []
  {
    if fs != [] {
      var p := fs[..|fs| - 1];
      assert WithFlags(fs, false)[..|fs| - 1] == WithFlags(p, false);
      WriteAllTwiceWritesNothing(p);
    }
  }

  /** Clear closes every text file of its list once, in order. */
  lemma {:induction false} ClosedEach(names: seq<string>)
    ensures |Closed(names)| == |names|
    ensures forall i :: 0 <= i < |names| ==> Closed(names)[i] == ClosedText(names[i])
  {
    if names != [] {
      var p := names[..|names| - 1];
      ClosedEach(p);
      assert forall i :: 0 <= i < |p| ==> p[i] == names[i];
    }
  }

  /** CloseOutputTraj ends every output trajectory of its list once, in order. */
  lemma {:induction false} EndedEach(names: seq<string>)
    ensures |Ended(names)| == |names|
    ensures forall i :: 0 <= i < |names| ==> Ended(names)[i] == EndedTraj(names[i])
  {
    if names != [] {
      var p := names[..|names| - 1];
      EndedEach(p);
      assert forall i :: 0 <= i < |p| ==> p[i] == names[i];
    }
  }

  // ---------------------------------------------------------------------
  // The registry object

  class DataFileList {
    /** Ensemble member number, -1 when not running an ensemble. */
    var ensembleNum: int
    var fileList: seq<DataFileRec>
    var cfList: seq<string>
    var cfData: seq<CFstruct>
    var tfList: seq<TrajRec>
    var ioLog: seq<Event>

    ghost function State(): Lists
      reads this
    {
      Lists(fileList, cfList, cfData, tfList, ioLog)
    }

    ghost predicate Valid()
      reads this
    {
      Registry(State())
    }

    constructor ()
      ensures ensembleNum == -1
      ensures fileList == [] && cfList == [] && cfData == [] && tfList == [] && ioLog == []
      ensures Valid()
    {
      ensembleNum := -1;
      fileList, cfList, cfData, tfList, ioLog := [], [], [], [], [];
    }

    /** The data file with exactly this full name; none for an empty name. */
    method GetDataFile(nameIn: string) returns (r: Option<nat>)
      ensures r == Lookup(DataNames(fileList), nameIn)
    {
      if nameIn == "" {
        return None;
      }
      var ns := DataNames(fileList);
      var i := 0;
      while i < |fileList|
        invariant 0 <= i <= |fileList|
        invariant nameIn !in ns[..i]
      {
        if fileList[i].name == nameIn {
          IndexOfAt(ns, nameIn, i);
          return Some(i);
        }
        assert ns[..i + 1] == ns[..i] + [ns[i]];
        i := i + 1;
      }
      assert ns[..i] == ns;
      IndexOfIsFirst(ns, nameIn);
      r := None;
    }

    /** Index of the text file with exactly this full name; -1 when there is none or the name is empty. */
    method GetCpptrajFileIdx(nameIn: string) returns (idx: int)
      ensures idx == match Lookup(cfList, nameIn) case None => -1 case Some(i) => i
    {
      if nameIn == "" {
        return -1;
      }
      idx := 0;
      while idx != |cfList|
        invariant 0 <= idx <= |cfList|
        invariant nameIn !in cfList[..idx]
      {
        if nameIn == cfList[idx] {
          IndexOfAt(cfList, nameIn, idx);
          return idx;
        }
        assert cfList[..idx + 1] == cfList[..idx] + [cfList[idx]];
        idx := idx + 1;
      }
      assert cfList[..idx] == cfList;
      IndexOfIsFirst(cfList, nameIn);
      idx := -1;
    }

    /** The text file with exactly this full name, if any. */
    method GetCpptrajFile(nameIn: string) returns (r: Option<nat>)
      ensures r == Lookup(cfList, nameIn)
    {
      var idx := GetCpptrajFileIdx(nameIn);
      if idx == -1 {
        return None;
      }
      r := Some(idx);
    }

    /** The output trajectory with exactly this full name, if any (the name is not checked for emptiness). */
    method GetOuttrajFile(fnameIn: string) returns (r: Option<nat>)
      ensures r == IndexOf(TrajNames(tfList), fnameIn)
    {
      var ns := TrajNames(tfList);
      var i := 0;
      while i < |tfList|
        invariant 0 <= i <= |tfList|
        invariant fnameIn !in ns[..i]
      {
        if tfList[i].name == fnameIn {
          IndexOfAt(ns, fnameIn, i);
          return Some(i);
        }
        assert ns[..i + 1] == ns[..i] + [ns[i]];
        i := i + 1;
      }
      assert ns[..i] == ns;
      IndexOfIsFirst(ns, fnameIn);
      r := None;
    }

    /** The pointer comes back null when it is in the list (the file is deleted), unchanged otherwise. */
    method RemoveDataFile(dfIn: Option<nat>) returns (r: Option<nat>)
      ensures r == if dfIn.Some? && dfIn.value < |fileList| then None else dfIn
    {
      var i := 0;
      while i < |fileList|
        invariant 0 <= i <= |fileList|
        invariant dfIn.Some? ==> dfIn.value >= i
      {
        if dfIn == Some(i) {
          return None;
        }
        i := i + 1;
      }
      r := dfIn;
    }

    /** Create a data file, or return the existing one of that name. */
    method AddDataFile(nameIn: string, args: seq<string>, typeIn: DataFormat,
                       argFormat: DataFormat, extFormat: DataFormat, setup: Option<DataFormat>) returns (r: Option<nat>)
      requires Valid()
      modifies this`fileList, this`ioLog
      ensures Step(State(), r) == AddDataFileSpec(old(State()), ensembleNum, nameIn, args, typeIn, argFormat, extFormat, setup)
      ensures Valid()
    {
      AddDataFileKeepsRegistry(State(), ensembleNum, nameIn, args, typeIn, argFormat, extFormat, setup);
      if nameIn == "" {
        return None;
      }
      var fname := EnsembleName(nameIn, ensembleNum);
      var ftype := FirstKnown(typeIn, argFormat, extFormat);
      var cf := GetCpptrajFile(fname);
      if cf.Some? {
        return None;
      }
      var to := GetOuttrajFile(fname);
      if to.Some? {
        return None;
      }
      var current := GetDataFile(fname);
      if current.None? {
        if setup.None? {
          return None;
        }
        r := Some(|fileList|);
        fileList := fileList + [DataFileRec(fname, setup.value, true)];
      } else {
        var i := current.value;
        if ftype != UnknownData && ftype != fileList[i].ftype {
          return None;
        }
        if args != [] {
          ioLog := ioLog + [ProcessedArgs(fname, args)];
        }
        r := current;
      }
    }

    /** Overload that takes the arguments by value; it behaves as AddDataFile. */
    method AddDataFileConstArgs(nameIn: string, typeIn: DataFormat, args: seq<string>,
                                argFormat: DataFormat, extFormat: DataFormat, setup: Option<DataFormat>) returns (r: Option<nat>)
      requires Valid()
      modifies this`fileList, this`ioLog
      ensures Step(State(), r) == AddDataFileSpec(old(State()), ensembleNum, nameIn, args, typeIn, argFormat, extFormat, setup)
      ensures Valid()
    {
      r := AddDataFile(nameIn, args, typeIn, argFormat, extFormat, setup);
    }

    /** Overload without a format: the format is detected. */
    method AddDataFileArgs(nameIn: string, args: seq<string>,
                           argFormat: DataFormat, extFormat: DataFormat, setup: Option<DataFormat>) returns (r: Option<nat>)
      requires Valid()
      modifies this`fileList, this`ioLog
      ensures Step(State(), r) == AddDataFileSpec(old(State()), ensembleNum, nameIn, args, UnknownData, argFormat, extFormat, setup)
      ensures Valid()
    {
      r := AddDataFile(nameIn, args, UnknownData, argFormat, extFormat, setup);
    }

    /** Overload with a name only: no arguments, so no format named by arguments. */
    method AddDataFileNamed(nameIn: string, extFormat: DataFormat, setup: Option<DataFormat>) returns (r: Option<nat>)
      requires Valid()
      modifies this`fileList, this`ioLog
      ensures Step(State(), r) == AddDataFileSpec(old(State()), ensembleNum, nameIn, [], UnknownData, UnknownData, extFormat, setup)
      ensures Valid()
    {
      r := AddDataFile(nameIn, [], UnknownData, UnknownData, extFormat, setup);
    }

    /** Create a text output file, or return the existing one of that name. */
    method AddCpptrajFile(nameIn: string, descrip: string, typeIn: CFtype, allowStdout: bool, openOk: bool)
      returns (r: Option<nat>)
      requires Valid()
      modifies this`cfList, this`cfData
      ensures Step(State(), r) == AddCpptrajFileSpec(old(State()), ensembleNum, nameIn, descrip, typeIn, allowStdout, openOk)
      ensures Valid()
    {
      AddCpptrajFileKeepsRegistry(State(), ensembleNum, nameIn, descrip, typeIn, allowStdout, openOk);
      if nameIn == "" && !allowStdout {
        return None;
      }
      var name := "";
      var currentIdx := -1;
      if nameIn != "" {
        name := EnsembleName(nameIn, ensembleNum);
        var df := GetDataFile(name);
        if df.Some? {
          return None;
        }
        var to := GetOuttrajFile(name);
        if to.Some? {
          return None;
        }
        currentIdx := GetCpptrajFileIdx(name);
      }
      if currentIdx == -1 {
        if !openOk {
          return None;
        }
        r := Some(|cfList|);
        cfList := cfList + [name];
        cfData := cfData + [CFstruct(descrip, typeIn)];
      } else {
        if typeIn != cfData[currentIdx].ctype {
          return None;
        }
        if descrip != "" {
          cfData := cfData[currentIdx := cfData[currentIdx].(descrip := descrip)];
        }
        r := Some(currentIdx);
      }
    }

    /** Overload for a text file; standard output is not allowed. */
    method AddCpptrajFileText(nameIn: string, descrip: string, openOk: bool) returns (r: Option<nat>)
      requires Valid()
      modifies this`cfList, this`cfData
      ensures Step(State(), r) == AddCpptrajFileSpec(old(State()), ensembleNum, nameIn, descrip, Text, false, openOk)
      ensures Valid()
    {
      r := AddCpptrajFile(nameIn, descrip, Text, false, openOk);
    }

    /** Overload with a type; standard output is not allowed. */
    method AddCpptrajFileTyped(nameIn: string, descrip: string, typeIn: CFtype, openOk: bool) returns (r: Option<nat>)
      requires Valid()
      modifies this`cfList, this`cfData
      ensures Step(State(), r) == AddCpptrajFileSpec(old(State()), ensembleNum, nameIn, descrip, typeIn, false, openOk)
      ensures Valid()
    {
      r := AddCpptrajFile(nameIn, descrip, typeIn, false, openOk);
    }

    /** Create an output trajectory; an existing one is never returned. */
    method AddOutputTraj(fnameIn: string, fmtIn: TrajFormat, argFormat: TrajFormat, extFormat: TrajFormat, initOk: bool)
      returns (r: Option<nat>)
      requires Valid()
      modifies this`tfList
      ensures Step(State(), r) == AddOutputTrajSpec(old(State()), ensembleNum, fnameIn, fmtIn, argFormat, extFormat, initOk)
      ensures Valid()
    {
      AddOutputTrajKeepsRegistry(State(), ensembleNum, fnameIn, fmtIn, argFormat, extFormat, initOk);
      if fnameIn == "" {
        return None;
      }
      var ftype := TrajFormatOf(fmtIn, argFormat, extFormat);
      var fname := EnsembleName(fnameIn, ensembleNum);
      var cf := GetCpptrajFile(fname);
      if cf.Some? {
        return None;
      }
      var df := GetDataFile(fname);
      if df.Some? {
        return None;
      }
      var to := GetOuttrajFile(fname);
      if to.Some? {
        return None;
      }
      if !initOk {
        return None;
      }
      r := Some(|tfList|);
      tfList := tfList + [TrajRec(fname, ftype)];
    }

    /** End every output trajectory, in order, and empty the list. */
    method CloseOutputTraj()
      requires Valid()
      modifies this`tfList, this`ioLog
      ensures tfList == []
      ensures ioLog == old(ioLog) + Ended(TrajNames(old(tfList)))
      ensures Valid()
    {
      var ns := TrajNames(tfList);
      var i := 0;
      while i < |tfList|
        invariant 0 <= i <= |tfList| && ns == TrajNames(tfList)
        invariant ioLog == old(ioLog) + Ended(ns[..i])
      {
        assert ns[..i + 1][..i] == ns[..i];
        ioLog := ioLog + [EndedTraj(tfList[i].name)];
        i := i + 1;
      }
      assert ns[..i] == ns;
      tfList := [];
    }

    /** Write every data file whose write flag is set, in order, and clear every flag. */
    method WriteAllDF()
      requires Valid()
      modifies this`fileList, this`ioLog
      ensures fileList == WithFlags(old(fileList), false)
      ensures ioLog == old(ioLog) + Written(old(fileList))
      ensures Valid()
    {
      FlagsKeepRegistry(State(), false);
      if fileList == [] {
        return;
      }
      ghost var fs := fileList;
      var i := 0;
      while i < |fileList|
        invariant 0 <= i <= |fileList| == |fs|
        invariant forall j :: 0 <= j < i ==> fileList[j] == fs[j].(write := false)
        invariant forall j :: i <= j < |fs| ==> fileList[j] == fs[j]
        invariant ioLog == old(ioLog) + Written(fs[..i])
      {
        assert fs[..i + 1][..i] == fs[..i];
        if fileList[i].write {
          ioLog := ioLog + [WroteData(fileList[i].name)];
          fileList := fileList[i := fileList[i].(write := false)];
        }
        i := i + 1;
      }
      assert fs[..i] == fs;
      assert fileList == WithFlags(fs, false);
    }

    /** Set every data file's write flag. */
    method ResetWriteStatus()
      requires Valid()
      modifies this`fileList
      ensures fileList == WithFlags(old(fileList), true)
      ensures Valid()
    {
      FlagsKeepRegistry(State(), true);
      ghost var fs := fileList;
      var i := 0;
      while i < |fileList|
        invariant 0 <= i <= |fileList| == |fs|
        invariant forall j :: 0 <= j < i ==> fileList[j] == fs[j].(write := true)
        invariant forall j :: i <= j < |fs| ==> fileList[j] == fs[j]
      {
        fileList := fileList[i := fileList[i].(write := true)];
        i := i + 1;
      }
      assert fileList == WithFlags(fs, true);
    }

    /** Delete every file; text files are closed first, in order. */
    method Clear()
      modifies this`fileList, this`cfList, this`cfData, this`tfList, this`ioLog
      ensures fileList == [] && cfList == [] && cfData == [] && tfList == []
      ensures ioLog == old(ioLog) + Closed(old(cfList))
      ensures Valid()
    {
      fileList := [];
      var i := 0;
      while i < |cfList|
        invariant 0 <= i <= |cfList| && cfList == old(cfList) && fileList == []
        invariant ioLog == old(ioLog) + Closed(cfList[..i])
      {
        assert cfList[..i + 1][..i] == cfList[..i];
        ioLog := ioLog + [ClosedText(cfList[i])];
        i := i + 1;
      }
      assert cfList[..i] == cfList;
      cfList, cfData, tfList := [], [], [];
    }

    /** The destructor: it only delegates to Clear. */
    method Destroy()
      modifies this`fileList, this`cfList, this`cfData, this`tfList, this`ioLog
      ensures fileList == [] && cfList == [] && cfData == [] && tfList == []
      ensures ioLog == old(ioLog) + Closed(old(cfList))
    {
      Clear();
    }

    /**
     * The `datafile` command: the first argument names a data file (no
     * ensemble suffix is applied), and the remaining ones are passed to its
     * ProcessArgs, whose status is `processErr`; `moreArgs` tells whether
     * arguments were left unprocessed. An absent name is only a warning.
     */
    method ProcessDataFileArgs(dataArg: seq<string>, processErr: int, moreArgs: bool) returns (err: int)
      requires Valid()
      modifies this`ioLog
      ensures var cmd := if dataArg == [] then "" else dataArg[0];
              if cmd == "" then err == 0 && ioLog == old(ioLog)
              else if cmd !in DataNames(fileList) then err == 1 && ioLog == old(ioLog)
              else ioLog == old(ioLog) + [ProcessedArgs(cmd, dataArg[1..])]
                   && (err == 0 <==> processErr == 0 && !moreArgs) && (err == 0 || err == 1)
      ensures Valid()
    {
      var dfCmd := if dataArg == [] then "" else dataArg[0];
      if dfCmd == "" {
        return 0;
      }
      var df := GetDataFile(dfCmd);
      IndexOfIsFirst(DataNames(fileList), dfCmd);
      if df.None? {
        return 1;
      }
      ioLog := ioLog + [ProcessedArgs(dfCmd, dataArg[1..])];
      if processErr != 0 || moreArgs {
        return 1;
      }
      err := 0;
    }
  }
}
