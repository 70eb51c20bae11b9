# cpptraj output registry, replica log, closest-solvent action and IO tokens in Dafny

This project models five small, stateful components of cpptraj, the
molecular-dynamics trajectory analysis program, and proves what each one
promises.

- **DataFileRegistry** (`data_file_list.dfy`, src/DataFileList.cpp). This is the run's list of output files: data files, text output files and output trajectories.
  - The two routines that add a data file or a text file are get-or-create.
  - Adding an output trajectory always creates a new one or fails.
  - Every add rejects a name that another list already holds.
  - The class `DataFileList` keeps its vectors as sequence fields. Its adds are proved against the pure step functions `AddDataFileSpec`, `AddCpptrajFileSpec` and `AddOutputTrajSpec`.
  - Lemmas about those functions prove the invariant `Registry`: no name is in two lists, and no non-empty name is twice in one list. They also prove the outcome of each add.
  - Pointers that the registry returns are modelled as indices into their list.
  - The `ioLog` field records, in order, the calls the registry makes on the files it holds: writing, processing arguments, closing and ending.
- **RemLog** (`remlog.dfy`, src/DataSet_RemLog.cpp). This is the replica-exchange log: one sequence of exchanges per replica. The model covers allocation, the exchange count, the consistency check, and trimming every member to the shortest one.
- **ClosestWaters** (`closest.dfy`, src/Action_Closest.cpp). This is the `closest` action, which keeps the `closestWaters_` solvent molecules nearest to a set of atoms.
  - **Setup.** It walks the topology's molecules, building one entry per solvent molecule and the strip mask. It records where each kept solvent molecule's atoms go in the stripped system, and rejects solvent molecules of unequal size.
  - **Each frame.** It measures every solvent molecule, sorts the molecules by distance, and writes the nearest ones into their reserved slots and into the output data sets.
  - **Distances.** The squared distance between two atoms is a function parameter.
- **Dispatch** (`dispatch.dfy`, src/DispatchObject.cpp). This is the keyword search of a command object and the table of help-section names for the command categories.
- **IOTokens** (`io_tokens.dfy`, src/IO.cpp, src/IOtokenList.h, src/IOtokenList.cpp, src/IO_Token.h). These are format tokens, each made of an object, its keywords and its extensions. `IO::AddIO` splits a counted argument list into keywords and extensions and appends the token to an append-only token list.
- `wrappers.dfy` holds the `Option` type.

External calls become parameters, so the model is deterministic. The calls replaced this way are:
- file set-up, opening and initialisation (`SetupDatafile`, `OpenWrite`, `InitTrajWrite`);
- format detection (`GetFormatFromArg`, `GetTypeFromExtension`);
- a data file's `ProcessArgs` status;
- the atom-mask set-up of `closest`;
- the frame's squared-distance function and its maximum imaged distance.

## Model

| member | source | states |
|---|---|---|
| DataFileRegistry.EnsembleNameSuffix | src/DataFileList.cpp:117-118 | Without an ensemble number (-1) the name is kept. With one, "." and the number are appended, and a non-negative number reads back from the suffix. A non-empty name stays non-empty. |
| DataFileRegistry.EnsembleNameInjective | src/DataFileList.cpp:117-118 | Two names that are equal after the ensemble suffix were equal before it. |
| DataFileRegistry.IndexOf | src/DataFileList.cpp:68-74 | A found index holds the name. |
| DataFileRegistry.IndexOfIsFirst | src/DataFileList.cpp:68-85 | Lookup finds something exactly when the name is in the list, and it finds the first occurrence. |
| DataFileRegistry.TrajFormatOf | src/DataFileList.cpp:267-277 | The trajectory format is never unknown. A requested format is kept, and a format nothing identifies defaults to an Amber trajectory. |
| DataFileRegistry.AddDataFileKeepsRegistry | src/DataFileList.cpp:119-142 | AddDataFile keeps the invariant: names are unique within each list and across the three lists, and data-file names are non-empty. |
| DataFileRegistry.AddDataFileOutcome | src/DataFileList.cpp:102-164 | The result is null with nothing changed for an empty name, or for a name (with its ensemble suffix) held by a text file or trajectory. An existing file of that name is returned without growing the list, and it is null exactly when a known format differing from the file's was asked for. Otherwise the new file is appended and returned exactly when set-up succeeds. The text and trajectory lists never change. |
| DataFileRegistry.AddDataFileTwice | src/DataFileList.cpp:133-163 | Get-or-create: adding a name again, with no format or the file's own, returns the same file and leaves the data-file list unchanged. |
| DataFileRegistry.AddCpptrajFileKeepsRegistry | src/DataFileList.cpp:191-251 | AddCpptrajFile keeps the invariant, including equal lengths of the text-file list and its data. |
| DataFileRegistry.AddCpptrajFileOutcome | src/DataFileList.cpp:191-251 | An empty name without stdout allowed gives null, and so does a name held by a data file or trajectory. An existing name with another type gives null. Otherwise the existing file is returned with its description replaced only by a non-empty one and every other entry unchanged. A new file (including stdout) is appended with its data exactly when opening succeeds. |
| DataFileRegistry.AddOutputTrajKeepsRegistry | src/DataFileList.cpp:261-312 | AddOutputTraj keeps the invariant. |
| DataFileRegistry.AddOutputTrajOutcome | src/DataFileList.cpp:261-312 | It succeeds exactly when the name is non-empty, is in none of the three lists, and initialisation succeeds. It then appends exactly one trajectory, at the end, in a known format (Amber when nothing identifies one). Otherwise nothing changes. |
| DataFileRegistry.AddOutputTrajTwice | src/DataFileList.cpp:260-300 | An existing trajectory is never returned: a second add of the same name fails and changes nothing. |
| DataFileRegistry.WrittenOnlyListed | src/DataFileList.cpp:366-371 | WriteAllDF writes only files in the list. |
| DataFileRegistry.WrittenExactlyFlagged | src/DataFileList.cpp:366-371 | Each file whose write flag is set is written exactly once, and each other file not at all. |
| DataFileRegistry.ResetThenWriteAll | src/DataFileList.cpp:360-382 | After ResetWriteStatus, WriteAllDF writes every file, in list order. |
| DataFileRegistry.WriteAllTwiceWritesNothing | src/DataFileList.cpp:366-371 | Once every flag is cleared, WriteAllDF writes nothing. |
| DataFileRegistry.ClosedEach | src/DataFileList.cpp:24-27 | Clear closes each text file once, in list order. |
| DataFileRegistry.EndedEach | src/DataFileList.cpp:317-326 | CloseOutputTraj ends each output trajectory once, in list order. |
| DataFileRegistry.DataFileList.constructor | src/DataFileList.cpp:14 | Empty lists, ensemble number -1, invariant holds. |
| DataFileRegistry.DataFileList.GetDataFile | src/DataFileList.cpp:68-74 | The first data file whose full name equals the name; none for an empty name or no match. |
| DataFileRegistry.DataFileList.GetCpptrajFileIdx | src/DataFileList.cpp:79-85 | The index of the first text file with that name; -1 for an empty name or no match. |
| DataFileRegistry.DataFileList.GetCpptrajFile | src/DataFileList.cpp:87-91 | The text file at that index, or none when the index is -1. |
| DataFileRegistry.DataFileList.GetOuttrajFile | src/DataFileList.cpp:254-258 | The first trajectory with that name; the name is not checked for emptiness. |
| DataFileRegistry.DataFileList.RemoveDataFile | src/DataFileList.cpp:37-45 | Returns null when the file is in the list, and the pointer given otherwise. |
| DataFileRegistry.DataFileList.AddDataFile | src/DataFileList.cpp:102-164 | The new lists and the returned file are those of AddDataFileSpec, and the invariant is kept. |
| DataFileRegistry.DataFileList.AddDataFileConstArgs | src/DataFileList.cpp:94-99 | Same as AddDataFile. |
| DataFileRegistry.DataFileList.AddDataFileArgs | src/DataFileList.cpp:166-168 | AddDataFile with an unknown format. |
| DataFileRegistry.DataFileList.AddDataFileNamed | src/DataFileList.cpp:171-174 | AddDataFile with no arguments and an unknown format. |
| DataFileRegistry.DataFileList.AddCpptrajFile | src/DataFileList.cpp:191-251 | The new lists and the returned file are those of AddCpptrajFileSpec, and the invariant is kept. |
| DataFileRegistry.DataFileList.AddCpptrajFileText | src/DataFileList.cpp:178-179 | AddCpptrajFile as TEXT, without stdout. |
| DataFileRegistry.DataFileList.AddCpptrajFileTyped | src/DataFileList.cpp:183-185 | AddCpptrajFile without stdout. |
| DataFileRegistry.DataFileList.AddOutputTraj | src/DataFileList.cpp:261-312 | The new trajectory list and the returned trajectory are those of AddOutputTrajSpec, and the invariant is kept. |
| DataFileRegistry.DataFileList.CloseOutputTraj | src/DataFileList.cpp:315-327 | Every trajectory is ended, in order, and the list is left empty. |
| DataFileRegistry.DataFileList.WriteAllDF | src/DataFileList.cpp:360-376 | The log gains the writes of the flagged files in order, every flag ends false, and nothing else changes. |
| DataFileRegistry.DataFileList.ResetWriteStatus | src/DataFileList.cpp:379-382 | Every write flag ends true; names and formats are unchanged. |
| DataFileRegistry.DataFileList.Clear | src/DataFileList.cpp:20-34 | Every text file is closed in order, and all four lists are left empty. |
| DataFileRegistry.DataFileList.Destroy | src/DataFileList.cpp:17 | The destructor does what Clear does. |
| DataFileRegistry.DataFileList.ProcessDataFileArgs | src/DataFileList.cpp:386-407 | No name gives 0 with nothing done, and an unknown name gives 1. Otherwise the file's ProcessArgs gets the remaining arguments, and the status is 0 exactly when that succeeds and no argument is left over. |
| RemLog.MinLength | src/DataSet_RemLog.cpp:43-48 | The running minimum is at most every member's length and equals one of them. |
| RemLog.Trimmed | src/DataSet_RemLog.cpp:50-51 | Trimming keeps the number of members. |
| RemLog.TrimmedIsConsistent | src/DataSet_RemLog.cpp:41-52 | After trimming, each member is a prefix of itself as it was, all have the old minimum length, the ensemble is consistent, and its exchange count is that minimum. |
| RemLog.TrimmedConsistentIsUnchanged | src/DataSet_RemLog.cpp:41-52 | Trimming a consistent ensemble changes nothing. |
| RemLog.TrimmedIdempotent | src/DataSet_RemLog.cpp:41-52 | Trimming twice is the same as trimming once. |
| RemLog.DataSetRemLog.constructor | src/DataSet_RemLog.cpp:4-7 | Empty ensemble and tables. |
| RemLog.DataSetRemLog.AllocateReplicas | src/DataSet_RemLog.cpp:9-18 | Succeeds exactly when n is not negative. It then leaves exactly n empty members, and the three tables equal the inputs. For a negative n the resize fails after the ensemble has been cleared, so the ensemble is empty and the tables are unchanged. |
| RemLog.DataSetRemLog.NumExchange | src/DataSet_RemLog.cpp:20-25 | 0 for an empty ensemble; in a consistent ensemble, every member's length. |
| RemLog.DataSetRemLog.ValidEnsemble | src/DataSet_RemLog.cpp:27-39 | True exactly when every member is as long as the first. |
| RemLog.DataSetRemLog.TrimLastExchange | src/DataSet_RemLog.cpp:41-52 | The ensemble becomes Trimmed of the old one (unchanged when empty), and the tables are unchanged. |
| ClosestWaters.Atoms | src/Action_Closest.cpp:151 | A molecule's atom range is its atoms from BeginAtom up to EndAtom, in order. |
| ClosestWaters.SolventPrefix | src/Action_Closest.cpp:134 | SolventMols_ has one entry per solvent molecule. |
| ClosestWaters.KeptPrefix | src/Action_Closest.cpp:169-175 | A kept slot is recorded for the first closestWaters_ solvent molecules, or for all of them if there are fewer. |
| ClosestWaters.SolventEntries | src/Action_Closest.cpp:134-179 | Each solvent entry has a 1-based molecule number counted over all molecules, that molecule is solvent, its mask is that molecule's atoms, and D starts at 0. Entries are in topology order. |
| ClosestWaters.KeptSlot | src/Action_Closest.cpp:169-175 | keptWaterAtomNum_[k] is the position in the strip mask where the k-th kept solvent molecule's atoms sit. |
| ClosestWaters.KeptOrdered | src/Action_Closest.cpp:169-175 | Every kept slot lies inside the strip mask, and the slots are in order and do not overlap. |
| ClosestWaters.StripTotal | src/Action_Closest.cpp:149-175 | The strip mask holds the solute atoms plus molecule size × the number of kept solvent molecules (the NsolventAtoms *= closestWaters_ count of line 199). |
| ClosestWaters.MismatchNotUniform | src/Action_Closest.cpp:153-162 | A solvent molecule whose size differs from the first solvent molecule's means the solvent is not uniform. |
| ClosestWaters.WalkMolecules | src/Action_Closest.cpp:127-180 | The walk reports uniform exactly when all solvent molecules have one size. It then returns the solvent entries, strip mask and kept slots described above. |
| ClosestWaters.Resize | src/Action_Closest.cpp:142 | Resizing gives the requested length and keeps the entries that fit. |
| ClosestWaters.MinOverIsLeast | src/Action_Closest.cpp:278-300 | The running minimum is at most maxD and every candidate distance, and it is maxD or one of them. |
| ClosestWaters.MoleculeMinDistance | src/Action_Closest.cpp:278-300 | One molecule's D is the running minimum of the compared squared distances (each mask atom to the first solvent atom with firstAtom_, otherwise the mask atom to every solvent atom), and it bounds each of them. |
| ClosestWaters.Measure | src/Action_Closest.cpp:278 | Measuring changes only D. |
| ClosestWaters.MeasureAll | src/Action_Closest.cpp:274-305 | Every solvent molecule is measured, in place and in order. |
| ClosestWaters.MeasureMolecules | src/Action_Closest.cpp:274-305 | The loop over molecules computes MeasureAll. |
| ClosestWaters.InsertElements | src/Action_Closest.cpp:314 | One insertion adds exactly that element. |
| ClosestWaters.InsertSorted | src/Action_Closest.cpp:314 | Insertion keeps the order by D. |
| ClosestWaters.InsertAllSorts | src/Action_Closest.cpp:314 | The sort's result is ordered by D and is a permutation of its input. |
| ClosestWaters.SortByDistance | src/Action_Closest.cpp:314 | The sort computes InsertAll. |
| ClosestWaters.TiesKeepOrder | src/Action_Closest.cpp:314 | Two molecules at the same distance come out in the order they went in. This is one of the orders std::sort may produce. |
| ClosestWaters.OverwriteSlot | src/Action_Closest.cpp:331 | Adding a mask at a position writes its atoms there and leaves every other entry unchanged. |
| ClosestWaters.Placed | src/Action_Closest.cpp:320-349 | Placement keeps the strip mask's length. |
| ClosestWaters.PlacedSlots | src/Action_Closest.cpp:320-349 | After placement, the k-th nearest molecule's atoms sit at keptWaterAtomNum_[k], and positions outside the slots are unchanged. |
| ClosestWaters.PlaceNearest | src/Action_Closest.cpp:320-349 | The loop computes the placed strip mask and, for the first closestWaters_ molecules, their molecule numbers, squared distances and 1-based first atoms. |
| ClosestWaters.SlotReadsMatchKeep | src/Action_Closest.cpp:320-349 | For 1 ≤ closestWaters_ ≤ the solvent count, the loop reads exactly closestWaters_ kept slots. |
| ClosestWaters.SlotReadsAsWritten | src/Action_Closest.cpp:320-349 | The placement loop as written, counted from a given molecule, reads at least one kept slot when a molecule is left, and never more than one per remaining molecule. |
| ClosestWaters.KeepZeroReadsPastEnd | src/Action_Closest.cpp:320-349 | For closestWaters_ == 0, the loop reads one kept slot per solvent molecule, although there are none. |
| ClosestWaters.SetupLayout | src/Action_Closest.cpp:107-180 | A uniform topology with closestWaters_ below the solvent count gives the layout Ready describes. |
| ClosestWaters.FrameLayout | src/Action_Closest.cpp:314-349 | A frame that reorders molecules without changing their sizes keeps that layout, before and after placement. |
| ClosestWaters.ActionFillsSlots | src/Action_Closest.cpp:320-349 | With molecules of one size, each slot receives the atoms of the molecule of the same rank, and nothing else changes. |
| ClosestWaters.Closest.constructor | src/Action_Closest.cpp:14-30 | No molecules to keep, firstAtom_ false, imaging on, no output, Nclosest_ 0. |
| ClosestWaters.Closest.Init | src/Action_Closest.cpp:42-99 | Fails for a negative keep count, a failed output set-up or no mask, and succeeds otherwise. It sets firstAtom_ and imaging when the count is valid, and the mask only on success. The output data sets are emptied and the output file recorded only when closestout is given and the sets can be made; the file counts as present exactly when it could be set up. Otherwise the data sets and the output file are unchanged. |
| ClosestWaters.Closest.Setup | src/Action_Closest.cpp:107-243 | Fails with nothing changed when there is no solvent or keep ≥ the solvent count. It also fails for non-uniform solvent, an empty mask or a failed strip. On success the fields hold the solvent entries, strip mask and kept slots, and the layout holds. |
| ClosestWaters.Closest.MeasureSolvent | src/Action_Closest.cpp:274-305 | Every molecule's D is measured, and the layout is kept. |
| ClosestWaters.Closest.SortSolvent | src/Action_Closest.cpp:314 | SolventMols_ is sorted by D, and the layout is kept. |
| ClosestWaters.Closest.PlaceSolvent | src/Action_Closest.cpp:320-349 | The nearest closestWaters_ molecules are placed. With an output file, exactly closestWaters_ records are appended to each data set, with frame number frameNum + 1, and Nclosest_ advances by the same amount. |
| ClosestWaters.Closest.Action | src/Action_Closest.cpp:249-358 | A frame is measure, then sort, then place, as above, and the layout is kept. |
| Dispatch.KeyMatches | src/DispatchObject.cpp:3-7 | True exactly when the key equals some keyword; false for an empty keyword list. |
| Dispatch.ObjKeyword | src/DispatchObject.cpp:10-24 | The help-section name of a category. Every name it gives is non-empty. Which categories are named, and that the names are distinct, are the two lemmas below. |
| Dispatch.ObjKeywordNamedIffListed | src/DispatchObject.cpp:10-24 | A category has a name exactly when it is PARM, TRAJ, COORDS, ACTION, ANALYSIS, GENERAL or SYSTEM. NONE, HIDDEN, DEPRECATED and any other category (TOPIC) give null. |
| Dispatch.ObjKeywordInjective | src/DispatchObject.cpp:13-19 | The non-null names are pairwise distinct. |
| IOTokens.IOToken.Obj | src/IO_Token.h:19 | Returns the stored object; requires a non-empty token. |
| IOTokens.DefaultToken | src/IO_Token.h:11 | A default token is Empty, with no keywords or extensions. |
| IOTokens.MakeToken | src/IO_Token.h:13 | Stores the object, keywords and extensions as given; with an object it is not Empty and Obj returns it. |
| IOTokens.IOtokenList.constructor | src/IOtokenList.h:8 | A new list is empty. |
| IOTokens.IOtokenList.Tokens | src/IOtokenList.h:12-14 | Iteration visits the tokens in insertion order. |
| IOTokens.IOtokenList.Add | src/IOtokenList.h:11 | Appends at the end, so Back is the token just added, and leaves earlier tokens unchanged. |
| IOTokens.IOtokenList.Back | src/IOtokenList.h:15 | The most recently added token; requires a non-empty list. |
| IOTokens.IOtokenList.Clear | src/IOtokenList.cpp:5-9 | Each token is cleared exactly once, in order, and then the list is emptied. |
| IOTokens.IOtokenList.Destroy | src/IOtokenList.cpp:3 | The destructor does what Clear does. |
| IOTokens.SplitArgs | src/IO.cpp:6-16 | The keywords are the first nKeys arguments and the extensions the next nTotal - nKeys, in order; there are none when nKeys ≥ nTotal. For 0 ≤ nKeys ≤ nTotal there are nTotal in all. |
| IOTokens.AddIO | src/IO.cpp:4-19 | Appends exactly one token holding the given object, keywords and extensions, and leaves earlier tokens unchanged. |

## Left out

- File names are plain strings taken to be full paths. FileName's path handling, and the integerToString routine beyond decimal text with a minus sign, are not part of this model.
- A newly set-up data file starts with its write flag set. DataFile's constructor is not part of this model.
- The calls that act on files are recorded in `ioLog` and not carried out: WriteDataOut, ProcessArgs, CloseFile and EndTraj.
- `DataFileList::List`, `RemoveDataSet` and `SetDebug` print or delegate to DataFile code, which is not part of this model.
- The MPI barrier and ParallelEndTraj, and the TIMER code, are not modelled.
- DataFileRegistry.DataFileList.RemoveDataFile: only the returned value is modelled. The source deletes the data file but does not erase its pointer from the list, so the list in this model keeps the entry.
- AddCpptrajFile's type switch (TEXT or PDB) becomes a stored kind. The PDB subclass is not modelled.
- ClosestWaters.Closest.Action: requires firstAtom_ or a one-atom distance mask. Without firstAtom_, the source does not reset `solvent_atom` for the second mask atom and reads past the end of the solvent mask (src/Action_Closest.cpp:284-300).
- Distances are squared distances from a function parameter. So are the values of the distance data set: the sqrt of line 338 is not applied. Imaging, BoxToRecip, the maximum imaged distance and floating-point rounding are left to that parameter and to `maxD`.
- The OpenMP loop over solvent molecules is modelled sequentially.
- The stripped topology (modifyStateByMask) is a success parameter. Parm writing with `outprefix` and `SetFrame` on the new frame are not modelled.
- ClosestWaters.SortByDistance: the sort is modelled as an insertion sort, which keeps equal distances in their previous order. std::sort does not promise that order.
- AtomMask::AddMaskAtPosition is modelled as writing the molecule's atoms at the given position of a strip mask whose length was fixed at setup.
- The useImage_ flag is stored but has no effect beyond `maxD` and the distance parameter. `prefix_` is not modelled.
- RemLog.DataSetRemLog.AllocateReplicas: the exception a negative count raises is modelled as the result `false`. Its propagation to callers is not modelled.
- RemLog.DataSetRemLog.ValidEnsemble: requires a non-empty ensemble, because the source dereferences the first member without a check.
- IO_Token::Clear's body (it frees the object) and IO::Init/Free are not part of this model. The static token list is passed explicitly.

## Findings

| source | as written | input that shows it | evidently intended | confidence | as-written member | corrected member |
|---|---|---|---|---|---|---|
| src/Action_Closest.cpp:320-349 | The placement loop reads a kept slot before checking the count, and breaks only once the count reaches closestWaters_ after an increment. init accepts 0 (line 45). | closestWaters_ == 0 with at least one solvent molecule: the loop reads one slot per solvent molecule from an empty keptWaterAtomNum_. | Place exactly closestWaters_ molecules, none for 0. | high, not executed | ClosestWaters.KeepZeroReadsPastEnd | ClosestWaters.PlaceNearest |
