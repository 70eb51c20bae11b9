/**
 * The `closest` trajectory action (src/Action_Closest.cpp): keep only the
 * closestWaters_ solvent molecules nearest to a set of solute atoms.
 * Setup partitions the topology's molecules into solute and solvent and
 * lays out where each kept solvent molecule's atoms go in the stripped
 * system; each frame then measures every solvent molecule, sorts them by
 * distance and writes the nearest ones into the reserved slots.
 * Distances come from a function parameter (the frame's coordinates,
 * imaging and floating point are not part of this model).
 */
module ClosestWaters {
  import opened Wrappers

  /** A molecule of the topology: atoms beginAtom .. endAtom-1. */
  datatype Molecule = Molecule(beginAtom: nat, endAtom: nat, isSolvent: bool)

  /** Every molecule holds at least one atom. */
  predicate WellFormed(top: seq<Molecule>) {
    forall i :: 0 <= i < |top| ==> top[i].beginAtom < top[i].endAtom
  }

  function Size(m: Molecule): nat
    requires m.beginAtom <= m.endAtom
  {
    m.endAtom - m.beginAtom
  }

  /** The atoms AtomMask::AddAtomRange(begin, end) selects, in order. */
  function Atoms(m: Molecule): (r: seq<nat>)
    requires m.beginAtom <= m.endAtom
    ensures |r| == Size(m) && forall i :: 0 <= i < |r| ==> r[i] == m.beginAtom + i
  {
    seq(m.endAtom - m.beginAtom, i requires 0 <= i => m.beginAtom + i)
  }

  function Min(a: int, b: int): int { if a < b then a else b }

  /** A solvent molecule, its 1-based molecule number, atoms and current squared distance. */
  datatype MolDist = MolDist(D: real, mol: int, mask: seq<nat>)

  /** Default entry SolventMols_ is resized with. */
  const Blank := MolDist(0.0, 0, [])

  /** Number of solvent molecules among the first n. */
  function NSolvent(top: seq<Molecule>, n: nat): nat
    requires n <= |top|
  {
    if n == 0 then 0 else NSolvent(top, n - 1) + (if top[n - 1].isSolvent then 1 else 0)
  }

  lemma {:induction false} NSolventMonotone(top: seq<Molecule>, m: nat, n: nat)
    requires m <= n <= |top|
    ensures NSolvent(top, m) <= NSolvent(top, n)
    decreases n
  {
    if m < n {
      NSolventMonotone(top, m, n - 1);
    }
  }

  /** The SolventMols_ entries setup creates for the first n molecules. */
  function SolventPrefix(top: seq<Molecule>, n: nat): (r: seq<MolDist>)
    requires WellFormed(top) && n <= |top|
    ensures |r| == NSolvent(top, n)
  {
    if n == 0 then []
    else SolventPrefix(top, n - 1) +
         (if top[n - 1].isSolvent then [MolDist(0.0, n, Atoms(top[n - 1]))] else [])
  }

  /** Whether setup keeps molecule j (0-based): a solvent molecule among the first keep. */
  predicate Kept(top: seq<Molecule>, j: nat, keep: nat)
    requires j < |top|
  {
    top[j].isSolvent && NSolvent(top, j) < keep
  }

  /** The strip mask after the first n molecules: all solute atoms and the kept solvent atoms. */
  function StripPrefix(top: seq<Molecule>, n: nat, keep: nat): seq<nat>
    requires WellFormed(top) && n <= |top|
  {
    if n == 0 then []
    else StripPrefix(top, n - 1, keep) +
         (if !top[n - 1].isSolvent || Kept(top, n - 1, keep) then Atoms(top[n - 1]) else [])
  }

  /** keptWaterAtomNum_ after the first n molecules: where each kept solvent molecule starts. */
  function KeptPrefix(top: seq<Molecule>, n: nat, keep: nat): (r: seq<nat>)
    requires WellFormed(top) && n <= |top|
    ensures |r| == Min(NSolvent(top, n), keep)
  {
    if n == 0 then []
    else KeptPrefix(top, n - 1, keep) +
         (if Kept(top, n - 1, keep) then [|StripPrefix(top, n - 1, keep)|] else [])
  }

  /** Number of solute atoms among the first n molecules. */
  function SoluteAtoms(top: seq<Molecule>, n: nat): nat
    requires WellFormed(top) && n <= |top|
  {
    if n == 0 then 0
    else SoluteAtoms(top, n - 1) + (if top[n - 1].isSolvent then 0 else Size(top[n - 1]))
  }

  /** Every solvent molecule among the first n has `size` atoms. */
  ghost predicate SolventSized(top: seq<Molecule>, n: nat, size: nat)
    requires WellFormed(top) && n <= |top|
  {
    forall j :: 0 <= j < n && top[j].isSolvent ==> Size(top[j]) == size
  }

  lemma SolventSizedStep(top: seq<Molecule>, i: nat, size: nat)
    requires WellFormed(top) && i < |top| && SolventSized(top, i, size)
    requires top[i].isSolvent ==> Size(top[i]) == size
    ensures SolventSized(top, i + 1, size)
  {
  }

  /** With no solvent molecule among the first n, none of them is solvent. */
  lemma {:induction false} NoSolventBefore(top: seq<Molecule>, n: nat)
    requires n <= |top| && NSolvent(top, n) == 0
    ensures forall j :: 0 <= j < n ==> !top[j].isSolvent
  {
    if n > 0 {
      NoSolventBefore(top, n - 1);
    }
  }

  /** All solvent molecules have the same number of atoms. */
  ghost predicate Uniform(top: seq<Molecule>)
    requires WellFormed(top)
  {
    forall j, l :: 0 <= j < |top| && 0 <= l < |top| && top[j].isSolvent && top[l].isSolvent ==>
      Size(top[j]) == Size(top[l])
  }

  /**
   * One SolventMols_ entry per solvent molecule, in topology order: the
   * entry's molecule number is the 1-based position among all molecules,
   * its mask is that molecule's atoms.
   */
  lemma {:induction false} SolventEntries(top: seq<Molecule>, n: nat)
    requires WellFormed(top) && n <= |top|
    ensures forall k :: 0 <= k < |SolventPrefix(top, n)| ==>
      var e := SolventPrefix(top, n)[k];
      1 <= e.mol <= n && top[e.mol - 1].isSolvent && e.mask == Atoms(top[e.mol - 1]) && e.D == 0.0
    ensures forall k, l :: 0 <= k < l < |SolventPrefix(top, n)| ==>
      SolventPrefix(top, n)[k].mol < SolventPrefix(top, n)[l].mol
  {
    if n > 0 {
      SolventEntries(top, n - 1);
      var p := SolventPrefix(top, n - 1);
      assert forall k :: 0 <= k < |p| ==> SolventPrefix(top, n)[k] == p[k];
    }
  }

  /**
   * Layout of the kept solvent molecules in the strip mask: the k-th kept
   * molecule's atoms lie exactly at keptWaterAtomNum_[k], inside the mask.
   */
  lemma {:induction false} KeptSlot(top: seq<Molecule>, n: nat, keep: nat, k: nat)
    requires WellFormed(top) && n <= |top| && k < |KeptPrefix(top, n, keep)|
    ensures k < |SolventPrefix(top, n)|
    ensures var pos, m := KeptPrefix(top, n, keep)[k], SolventPrefix(top, n)[k].mask;
      pos + |m| <= |StripPrefix(top, n, keep)| && StripPrefix(top, n, keep)[pos..pos + |m|] == m
  {
    var mol := top[n - 1];
    var kp, sp, st := KeptPrefix(top, n - 1, keep), SolventPrefix(top, n - 1), StripPrefix(top, n - 1, keep);
    var kn, sn, stn := KeptPrefix(top, n, keep), SolventPrefix(top, n), StripPrefix(top, n, keep);
    var added := if !mol.isSolvent || Kept(top, n - 1, keep) then Atoms(mol) else [];
    assert stn == st + added;
    if k < |kp| {
      KeptSlot(top, n - 1, keep, k);
      assert kn[k] == kp[k] && sn[k] == sp[k];
      SliceInAppended(st, added, kp[k], kp[k] + |sp[k].mask|);
    } else {
      assert Kept(top, n - 1, keep) && k == |kp| == |sp|;
      assert kn == kp + [|st|] && kn[k] == |st|;
      assert sn == sp + [MolDist(0.0, n, Atoms(mol))] && sn[k].mask == Atoms(mol);
      SliceOfAppended(st, added);
    }
  }

  lemma SliceInAppended<T>(b: seq<T>, c: seq<T>, i: nat, j: nat)
    requires i <= j <= |b|
    ensures (b + c)[i..j] == b[i..j]
  {
  }

  lemma SliceOfAppended<T>(b: seq<T>, c: seq<T>)
    ensures (b + c)[|b|..|b| + |c|] == c
  {
  }

  /** The kept slots follow each other in the strip mask without overlap. */
  lemma {:induction false} KeptOrdered(top: seq<Molecule>, n: nat, keep: nat)
    requires WellFormed(top) && n <= |top|
    ensures |KeptPrefix(top, n, keep)| <= |SolventPrefix(top, n)|
    ensures forall k :: 0 <= k < |KeptPrefix(top, n, keep)| ==>
      KeptPrefix(top, n, keep)[k] + |SolventPrefix(top, n)[k].mask| <= |StripPrefix(top, n, keep)|
    ensures forall k, l :: 0 <= k < l < |KeptPrefix(top, n, keep)| ==>
      KeptPrefix(top, n, keep)[k] + |SolventPrefix(top, n)[k].mask| <= KeptPrefix(top, n, keep)[l]
  {
    if n > 0 {
      KeptOrdered(top, n - 1, keep);
      var mol := top[n - 1];
      var kp, sp, st := KeptPrefix(top, n - 1, keep), SolventPrefix(top, n - 1), StripPrefix(top, n - 1, keep);
      var kn, sn := KeptPrefix(top, n, keep), SolventPrefix(top, n);
      assert kn == kp + (if Kept(top, n - 1, keep) then [|st|] else []);
      assert sn == sp + (if mol.isSolvent then [MolDist(0.0, n, Atoms(mol))] else []);
      assert forall k :: 0 <= k < |kp| ==> kn[k] == kp[k] && sn[k] == sp[k];
    }
  }

  /**
   * When every solvent molecule has `size` atoms, the strip mask holds the
   * solute atoms plus size atoms for each kept solvent molecule.
   */
  lemma {:induction false} StripTotal(top: seq<Molecule>, n: nat, keep: nat, size: nat)
    requires WellFormed(top) && n <= |top| && SolventSized(top, n, size)
    ensures |StripPrefix(top, n, keep)| == SoluteAtoms(top, n) + Min(NSolvent(top, n), keep) * size
  {
    if n > 0 {
      StripTotal(top, n - 1, keep, size);
      var mol := top[n - 1];
      var a := Min(NSolvent(top, n - 1), keep);
      var b := Min(NSolvent(top, n), keep);
      var added := if !mol.isSolvent || NSolvent(top, n - 1) < keep then Size(mol) else 0;
      assert |StripPrefix(top, n, keep)| == |StripPrefix(top, n - 1, keep)| + added;
      if mol.isSolvent && NSolvent(top, n - 1) < keep {
        assert b == a + 1 && added == size;
        MulStep(a, size);
      } else {
        assert b == a;
      }
    }
  }

  lemma MulStep(a: int, size: int)
    ensures (a + 1) * size == a * size + size
  {
  }

  /** Resizing a vector: keep the first n entries, pad with zeros. */
  function Resize(s: seq<nat>, n: nat): (r: seq<nat>)
    ensures |r| == n
    ensures forall i :: 0 <= i < n && i < |s| ==> r[i] == s[i]
  {
    if |s| >= n then s[..n] else s + seq(n - |s|, _ => 0)
  }

  /**
   * Squared distances the per-frame loop compares for one solvent molecule:
   * with firstAtom_, each mask atom against the molecule's first atom;
   * otherwise the single mask atom against every solvent atom.
   */
  function Candidates(dm: seq<nat>, atoms: seq<nat>, first: bool, dist2: (nat, nat) -> real): (r: seq<real>)
    requires atoms != [] && (first || |dm| == 1)
  {
    if first then seq(|dm|, a requires 0 <= a < |dm| => dist2(dm[a], atoms[0]))
    else seq(|atoms|, s requires 0 <= s < |atoms| => dist2(dm[0], atoms[s]))
  }

  /**
   * The running minimum that starts at maxD and replaces D by each
   * candidate strictly smaller: it is the least of maxD and the candidates.
   */
  function MinOver(maxD: real, ds: seq<real>): real
  {
    if ds == [] then maxD
    else
      var m := MinOver(maxD, ds[..|ds| - 1]);
      if ds[|ds| - 1] < m then ds[|ds| - 1] else m
  }

  /** MinOver is the least of maxD and the candidates, and it is one of them. */
  lemma {:induction false} MinOverIsLeast(maxD: real, ds: seq<real>)
    ensures MinOver(maxD, ds) <= maxD && forall i :: 0 <= i < |ds| ==> MinOver(maxD, ds) <= ds[i]
    ensures MinOver(maxD, ds) == maxD || exists i :: 0 <= i < |ds| && MinOver(maxD, ds) == ds[i]
    decreases |ds|
  {
    if ds != [] {
      var p := ds[..|ds| - 1];
      MinOverIsLeast(maxD, p);
      assert forall i :: 0 <= i < |p| ==> p[i] == ds[i];
    }
  }

  /**
   * Minimum squared distance between the distance mask and one solvent
   * molecule, walking the atoms as the per-frame loop does.
   */
  method MoleculeMinDistance(dm: seq<nat>, atoms: seq<nat>, first: bool, maxD: real, dist2: (nat, nat) -> real)
    returns (d: real)
    requires atoms != [] && (first || |dm| == 1)
    ensures d == MinOver(maxD, Candidates(dm, atoms, first, dist2))
    ensures d <= maxD && forall a, s :: 0 <= a < |dm| && 0 <= s < |atoms| && (first ==> s == 0) ==> d <= dist2(dm[a], atoms[s])
  {
    ghost var cs := Candidates(dm, atoms, first, dist2);
    d := maxD;
    var solventAtom := 0;
    var soluteAtom := 0;
    while soluteAtom < |dm|
      invariant 0 <= soluteAtom <= |dm|
      invariant first ==> solventAtom == 0 && d == MinOver(maxD, cs[..soluteAtom])
      invariant !first ==> (soluteAtom == 0 && solventAtom == 0 && d == maxD) ||
                           (soluteAtom == 1 && solventAtom == |atoms| && d == MinOver(maxD, cs))
    {
      var dist := dist2(dm[soluteAtom], atoms[solventAtom]);
      if dist < d {
        d := dist;
      }
      if first {
        assert cs[..soluteAtom + 1][..soluteAtom] == cs[..soluteAtom];
      } else {
        assert cs[..1][..0] == [];
        solventAtom := solventAtom + 1;
        while solventAtom < |atoms|
          invariant 1 <= solventAtom <= |atoms|
          invariant d == MinOver(maxD, cs[..solventAtom])
        {
          assert cs[..solventAtom + 1][..solventAtom] == cs[..solventAtom];
          dist := dist2(dm[soluteAtom], atoms[solventAtom]);
          if dist < d {
            d := dist;
          }
          solventAtom := solventAtom + 1;
        }
        assert cs[..solventAtom] == cs;
      }
      soluteAtom := soluteAtom + 1;
    }
    if first {
      assert cs[..soluteAtom] == cs;
    }
    MinOverIsLeast(maxD, cs);
    forall a, s | 0 <= a < |dm| && 0 <= s < |atoms| && (first ==> s == 0)
      ensures d <= dist2(dm[a], atoms[s])
    {
      if first {
        assert cs[a] == dist2(dm[a], atoms[0]);
      } else {
        assert cs[s] == dist2(dm[0], atoms[s]);
      }
    }
  }

  /** One solvent molecule with its distance for this frame filled in. */
  function Measure(m: MolDist, dm: seq<nat>, first: bool, maxD: real, dist2: (nat, nat) -> real): (r: MolDist)
    requires m.mask != [] && (first || |dm| == 1)
    ensures r.mol == m.mol && r.mask == m.mask
  {
    m.(D := MinOver(maxD, Candidates(dm, m.mask, first, dist2)))
  }

  /** Every solvent molecule measured for this frame, in the same order. */
  function MeasureAll(ms: seq<MolDist>, dm: seq<nat>, first: bool, maxD: real, dist2: (nat, nat) -> real): (r: seq<MolDist>)
    requires forall j :: 0 <= j < |ms| ==> ms[j].mask != []
    requires first || |dm| == 1
    ensures |r| == |ms| && forall j :: 0 <= j < |ms| ==> r[j] == Measure(ms[j], dm, first, maxD, dist2)
  {
    seq(|ms|, j requires 0 <= j < |ms| => Measure(ms[j], dm, first, maxD, dist2))
  }

  /** The records one frame adds to the output data sets for its n nearest molecules. */
  function FrameColumn(frame: int, n: nat): seq<int> { seq(n, _ => frame) }

  function MolColumn(ms: seq<MolDist>, n: nat): seq<int>
    requires n <= |ms|
  {
    seq(n, k requires 0 <= k < n => ms[k].mol)
  }

  function DistColumn(ms: seq<MolDist>, n: nat): seq<real>
    requires n <= |ms|
  {
    seq(n, k requires 0 <= k < n => ms[k].D)
  }

  /** 1-based number of each molecule's first atom. */
  function FirstAtomColumn(ms: seq<MolDist>, n: nat): seq<int>
    requires n <= |ms| && forall k :: 0 <= k < n ==> ms[k].mask != []
  {
    seq(n, k requires 0 <= k < n => ms[k].mask[0] + 1)
  }

  predicate SortedByD(s: seq<MolDist>) {
    forall i, j :: 0 <= i < j < |s| ==> s[i].D <= s[j].D
  }

  /** Inserts m after every entry that is not farther away, so equal distances keep their order. */
  function Insert(m: MolDist, s: seq<MolDist>): seq<MolDist>
  {
    if s == [] then [m]
    else if m.D < s[0].D then [m] + s
    else [s[0]] + Insert(m, s[1..])
  }

  /** Insert adds m and keeps every element of s. */
  lemma {:induction false} InsertElements(m: MolDist, s: seq<MolDist>)
    ensures |Insert(m, s)| == |s| + 1 && multiset(Insert(m, s)) == multiset(s) + multiset{m}
    ensures forall x :: x in Insert(m, s) <==> x == m || x in s
  {
    if s != [] && m.D >= s[0].D {
      InsertElements(m, s[1..]);
      assert s == [s[0]] + s[1..];
    }
  }

  /** Inserting into a sequence sorted by distance keeps it sorted. */
  lemma {:induction false} InsertSorted(m: MolDist, s: seq<MolDist>)
    requires SortedByD(s)
    ensures SortedByD(Insert(m, s))
  {
    if s != [] && m.D >= s[0].D {
      var t := Insert(m, s[1..]);
      InsertSorted(m, s[1..]);
      InsertElements(m, s[1..]);
      forall i | 0 <= i < |t|
        ensures s[0].D <= t[i].D
      {
        assert t[i] in t;
      }
    }
  }

  /** Two molecules at the same distance come out of the sort in the order they went in. */
  lemma TiesKeepOrder(a: MolDist, b: MolDist)
    requires a.D == b.D
    ensures InsertAll([a, b]) == [a, b]
  {
    assert [a, b][..1] == [a];
    assert InsertAll([a]) == [a];
    assert [a][1..] == [];
    assert Insert(b, [a]) == [a] + Insert(b, []);
  }

  /** The molecules inserted one after the other, in order, into an initially empty sequence. */
  function InsertAll(s: seq<MolDist>): seq<MolDist>
  {
    if s == [] then [] else Insert(s[|s| - 1], InsertAll(s[..|s| - 1]))
  }

  /** The per-frame order is sorted by distance and a permutation of the molecules. */
  lemma {:induction false} InsertAllSorts(s: seq<MolDist>)
    ensures SortedByD(InsertAll(s)) && multiset(InsertAll(s)) == multiset(s) && |InsertAll(s)| == |s|
  {
    if s != [] {
      var p := s[..|s| - 1];
      InsertAllSorts(p);
      InsertSorted(s[|s| - 1], InsertAll(p));
      InsertElements(s[|s| - 1], InsertAll(p));
      assert s == p + [s[|s| - 1]];
    }
  }

  /** The sort of the per-frame step. */
  method SortByDistance(s: seq<MolDist>) returns (r: seq<MolDist>)
    ensures r == InsertAll(s)
  {
    r := [];
    var i := 0;
    while i < |s|
      invariant 0 <= i <= |s| && r == InsertAll(s[..i])
    {
      assert s[..i + 1][..i] == s[..i];
      r := Insert(s[i], r);
      i := i + 1;
    }
    assert s[..i] == s;
  }

  /** Writes mask m over s starting at pos (AtomMask::AddMaskAtPosition). */
  function Overwrite(s: seq<nat>, pos: nat, m: seq<nat>): (r: seq<nat>)
    requires pos + |m| <= |s|
    ensures |r| == |s|
  {
    s[..pos] + m + s[pos + |m|..]
  }

  /** After Overwrite the slot holds m and every position outside it is unchanged. */
  lemma OverwriteSlot(s: seq<nat>, pos: nat, m: seq<nat>)
    requires pos + |m| <= |s|
    ensures Overwrite(s, pos, m)[pos..pos + |m|] == m
    ensures forall p :: 0 <= p < |s| && (p < pos || p >= pos + |m|) ==> Overwrite(s, pos, m)[p] == s[p]
  {
    var r := Overwrite(s, pos, m);
    assert r[pos..pos + |m|] == m by {
      forall k | 0 <= k < |m|
        ensures r[pos + k] == m[k]
      {
      }
    }
  }

  /** Slots and masks fit: the first n masks may be written at their kept positions. */
  predicate Fits(strip: seq<nat>, mols: seq<MolDist>, kept: seq<nat>, n: nat) {
    n <= |mols| && n <= |kept| &&
    forall k :: 0 <= k < n ==> kept[k] + |mols[k].mask| <= |strip|
  }

  /** The strip mask after writing the first n molecules' atoms at their kept positions. */
  function Placed(strip: seq<nat>, mols: seq<MolDist>, kept: seq<nat>, n: nat): (r: seq<nat>)
    requires Fits(strip, mols, kept, n)
    ensures |r| == |strip|
  {
    if n == 0 then strip
    else Overwrite(Placed(strip, mols, kept, n - 1), kept[n - 1], mols[n - 1].mask)
  }

  /**
   * When the slots do not overlap, each of the first n slots ends up
   * holding its molecule's atoms and every position outside the slots
   * keeps its old atom.
   */
  lemma {:induction false} PlacedSlots(strip: seq<nat>, mols: seq<MolDist>, kept: seq<nat>, n: nat)
    requires Fits(strip, mols, kept, n)
    requires forall k, l :: 0 <= k < l < n ==> kept[k] + |mols[k].mask| <= kept[l]
    ensures forall k :: 0 <= k < n ==>
      Placed(strip, mols, kept, n)[kept[k]..kept[k] + |mols[k].mask|] == mols[k].mask
    ensures forall p :: 0 <= p < |strip| && (forall k :: 0 <= k < n ==> p < kept[k] || p >= kept[k] + |mols[k].mask|) ==>
      Placed(strip, mols, kept, n)[p] == strip[p]
  {
    if n > 0 {
      PlacedSlots(strip, mols, kept, n - 1);
      var prev := Placed(strip, mols, kept, n - 1);
      var cur := Placed(strip, mols, kept, n);
      OverwriteSlot(prev, kept[n - 1], mols[n - 1].mask);
      forall k | 0 <= k < n - 1
        ensures cur[kept[k]..kept[k] + |mols[k].mask|] == mols[k].mask
      {
        assert cur[kept[k]..kept[k] + |mols[k].mask|] == prev[kept[k]..kept[k] + |mols[k].mask|];
      }
    }
  }

  /**
   * What the molecule walk of setup has built after the first i molecules:
   * the SolventMols_ entries so far (the rest still default), the strip
   * mask, the kept table prefix, and the size of the first solvent
   * molecule (-1 while none was seen), which all solvent molecules so far
   * share.
   */
  ghost predicate WalkInv(top: seq<Molecule>, keep: nat, nsolvent: nat, i: nat, solvent: seq<MolDist>,
                          strip: seq<nat>, kept: seq<nat>, mdist: nat, nclosest: nat, nsa: int, fs: nat)
    requires WellFormed(top)
  {
    && i <= |top|
    && mdist == NSolvent(top, i) <= nsolvent == |solvent|
    && solvent[..mdist] == SolventPrefix(top, i)
    && (forall j :: mdist <= j < nsolvent ==> solvent[j] == Blank)
    && strip == StripPrefix(top, i, keep)
    && nclosest == Min(mdist, keep) && |kept| == keep
    && kept[..nclosest] == KeptPrefix(top, i, keep)
    && (nsa == -1 <==> mdist == 0)
    && (nsa != -1 ==> fs < i && top[fs].isSolvent && nsa == Size(top[fs]) && SolventSized(top, i, nsa))
  }

  lemma {:induction false} WalkStart(top: seq<Molecule>, keep: nat, nsolvent: nat, kept: seq<nat>)
    requires WellFormed(top) && |kept| == keep
    ensures WalkInv(top, keep, nsolvent, 0, seq(nsolvent, _ => Blank), [], kept, 0, 0, -1, 0)
  {
  }

  /** A solute molecule only extends the strip mask. */
  lemma {:induction false} SoluteStep(top: seq<Molecule>, keep: nat, nsolvent: nat, i: nat, solvent: seq<MolDist>,
                   strip: seq<nat>, kept: seq<nat>, mdist: nat, nclosest: nat, nsa: int, fs: nat)
    requires WellFormed(top) && i < |top| && !top[i].isSolvent
    requires WalkInv(top, keep, nsolvent, i, solvent, strip, kept, mdist, nclosest, nsa, fs)
    ensures WalkInv(top, keep, nsolvent, i + 1, solvent, strip + Atoms(top[i]), kept, mdist, nclosest, nsa, fs)
  {
    assert StripPrefix(top, i + 1, keep) == StripPrefix(top, i, keep) + Atoms(top[i]);
    if nsa != -1 {
      SolventSizedStep(top, i, nsa);
    }
  }

  /** A solvent molecule whose size differs from the first one's shows the sizes are not uniform. */
  lemma {:induction false} MismatchNotUniform(top: seq<Molecule>, keep: nat, nsolvent: nat, i: nat, solvent: seq<MolDist>,
                           strip: seq<nat>, kept: seq<nat>, mdist: nat, nclosest: nat, nsa: int, fs: nat)
    requires WellFormed(top) && i < |top| && top[i].isSolvent
    requires WalkInv(top, keep, nsolvent, i, solvent, strip, kept, mdist, nclosest, nsa, fs)
    requires nsa != -1 && nsa != Size(top[i])
    ensures !Uniform(top)
  {
    assert top[fs].isSolvent && top[i].isSolvent;
  }

  /**
   * A solvent molecule fills the next SolventMols_ entry and, while fewer
   * than keep are kept, is kept at the current end of the strip mask.
   */
  lemma {:induction false} SolventStep(top: seq<Molecule>, keep: nat, nsolvent: nat, i: nat, solvent: seq<MolDist>,
                    strip: seq<nat>, kept: seq<nat>, mdist: nat, nclosest: nat, nsa: int, fs: nat)
    requires WellFormed(top) && i < |top| && top[i].isSolvent && nsolvent == NSolvent(top, |top|)
    requires WalkInv(top, keep, nsolvent, i, solvent, strip, kept, mdist, nclosest, nsa, fs)
    requires nsa == -1 || nsa == Size(top[i])
    ensures mdist < |solvent| && solvent[mdist] == Blank
    ensures WalkInv(top, keep, nsolvent, i + 1,
                    solvent[mdist := solvent[mdist].(mol := i + 1, mask := solvent[mdist].mask + Atoms(top[i]))],
                    if nclosest < keep then strip + Atoms(top[i]) else strip,
                    if nclosest < keep then kept[nclosest := |strip|] else kept,
                    mdist + 1,
                    if nclosest < keep then nclosest + 1 else nclosest,
                    Size(top[i]),
                    if nsa == -1 then i else fs)
  {
    NSolventMonotone(top, i + 1, |top|);
    if nsa == -1 {
      NoSolventBefore(top, i);
    }
    SolventSizedStep(top, i, Size(top[i]));
    var solvent' := solvent[mdist := solvent[mdist].(mol := i + 1, mask := solvent[mdist].mask + Atoms(top[i]))];
    assert solvent'[mdist] == MolDist(0.0, i + 1, Atoms(top[i]));
    assert solvent'[..mdist + 1] == SolventPrefix(top, i) + [solvent'[mdist]];
    if nclosest < keep {
      assert StripPrefix(top, i + 1, keep) == StripPrefix(top, i, keep) + Atoms(top[i]);
      assert KeptPrefix(top, i + 1, keep) == KeptPrefix(top, i, keep) + [|strip|];
      assert kept[nclosest := |strip|][..nclosest + 1] == kept[..nclosest] + [|strip|];
    } else {
      assert StripPrefix(top, i + 1, keep) == StripPrefix(top, i, keep);
      assert KeptPrefix(top, i + 1, keep) == KeptPrefix(top, i, keep);
    }
  }

  /** After the last molecule the walk has built the whole layout, and the sizes were uniform. */
  lemma {:induction false} WalkDone(top: seq<Molecule>, keep: nat, nsolvent: nat, solvent: seq<MolDist>,
                 strip: seq<nat>, kept: seq<nat>, mdist: nat, nclosest: nat, nsa: int, fs: nat)
    requires WellFormed(top) && nsolvent == NSolvent(top, |top|)
    requires WalkInv(top, keep, nsolvent, |top|, solvent, strip, kept, mdist, nclosest, nsa, fs)
    ensures Uniform(top)
    ensures solvent == SolventPrefix(top, |top|) && strip == StripPrefix(top, |top|, keep)
    ensures kept[..Min(nsolvent, keep)] == KeptPrefix(top, |top|, keep)
  {
    if nsa == -1 {
      NoSolventBefore(top, |top|);
    }
    assert solvent[..mdist] == solvent;
  }

  /**
   * The molecule walk of setup. Solute molecules go into the strip mask;
   * each solvent molecule gets the next SolventMols_ entry and, while
   * fewer than keep have been kept, its atoms go into the strip mask and
   * its start position into the kept table (which starts as the previous
   * table resized to keep). The walk stops at the first solvent molecule
   * whose size differs from the first one's, returning what it built.
   */
  method WalkMolecules(top: seq<Molecule>, keep: nat, nsolvent: nat, keptIn: seq<nat>)
    returns (uniform: bool, solvent: seq<MolDist>, strip: seq<nat>, kept: seq<nat>)
    requires WellFormed(top) && nsolvent == NSolvent(top, |top|)
    ensures |solvent| == nsolvent && |kept| == keep
    ensures uniform <==> Uniform(top)
    ensures uniform ==>
      && solvent == SolventPrefix(top, |top|)
      && strip == StripPrefix(top, |top|, keep)
      && kept[..Min(nsolvent, keep)] == KeptPrefix(top, |top|, keep)
  {
    var nsolventAtoms: int := -1;
    ghost var firstSolvent: nat := 0;
    solvent := seq(nsolvent, _ => Blank);
    var mdist: nat := 0;
    var molnum := 1;
    strip := [];
    var newnatom := 0;
    var nclosest: nat := 0;
    kept := Resize(keptIn, keep);
    var i := 0;
    WalkStart(top, keep, nsolvent, kept);
    while i < |top|
      invariant WalkInv(top, keep, nsolvent, i, solvent, strip, kept, mdist, nclosest, nsolventAtoms, firstSolvent)
      invariant molnum == i + 1 && newnatom == |strip|
    {
      var m := top[i];
      if !m.isSolvent {
        SoluteStep(top, keep, nsolvent, i, solvent, strip, kept, mdist, nclosest, nsolventAtoms, firstSolvent);
        strip := strip + Atoms(m);
        newnatom := newnatom + Size(m);
      } else {
        if nsolventAtoms != -1 && nsolventAtoms != Size(m) {
          MismatchNotUniform(top, keep, nsolvent, i, solvent, strip, kept, mdist, nclosest, nsolventAtoms, firstSolvent);
          return false, solvent, strip, kept;
        }
        SolventStep(top, keep, nsolvent, i, solvent, strip, kept, mdist, nclosest, nsolventAtoms, firstSolvent);
        if nsolventAtoms == -1 {
          nsolventAtoms := Size(m);
          firstSolvent := i;
        }
        solvent := solvent[mdist := solvent[mdist].(mol := molnum, mask := solvent[mdist].mask + Atoms(m))];
        if nclosest < keep {
          kept := kept[nclosest := newnatom];
          strip := strip + Atoms(m);
          newnatom := newnatom + Size(m);
          nclosest := nclosest + 1;
        }
        mdist := mdist + 1;
      }
      molnum := molnum + 1;
      i := i + 1;
    }
    WalkDone(top, keep, nsolvent, solvent, strip, kept, mdist, nclosest, nsolventAtoms, firstSolvent);
    return true, solvent, strip, kept;
  }

  /** The per-frame distance loop: every solvent molecule gets its minimum distance. */
  method MeasureMolecules(ms: seq<MolDist>, dm: seq<nat>, first: bool, maxD: real, dist2: (nat, nat) -> real)
    returns (r: seq<MolDist>)
    requires forall j :: 0 <= j < |ms| ==> ms[j].mask != []
    requires first || |dm| == 1
    ensures r == MeasureAll(ms, dm, first, maxD, dist2)
  {
    r := ms;
    var solventMol := 0;
    while solventMol < |r|
      invariant 0 <= solventMol <= |r| == |ms|
      invariant forall j :: 0 <= j < solventMol ==> r[j] == Measure(ms[j], dm, first, maxD, dist2)
      invariant forall j :: solventMol <= j < |r| ==> r[j] == ms[j]
    {
      var d := MoleculeMinDistance(dm, r[solventMol].mask, first, maxD, dist2);
      r := r[solventMol := r[solventMol].(D := d)];
      solventMol := solventMol + 1;
    }
  }

  /** Each output column for n + 1 molecules extends the one for n by molecule n. */
  lemma {:induction false} ColumnsStep(mols: seq<MolDist>, n: nat)
    requires n < |mols| && forall k :: 0 <= k <= n ==> mols[k].mask != []
    ensures MolColumn(mols, n + 1) == MolColumn(mols, n) + [mols[n].mol]
    ensures DistColumn(mols, n + 1) == DistColumn(mols, n) + [mols[n].D]
    ensures FirstAtomColumn(mols, n + 1) == FirstAtomColumn(mols, n) + [mols[n].mask[0] + 1]
  {
  }

  /**
   * The per-frame placement loop: the first n molecules' atoms are written
   * at their kept positions, and their molecule numbers, distances and
   * 1-based first atoms are collected for the output data sets.
   */
  method PlaceNearest(strip: seq<nat>, mols: seq<MolDist>, kept: seq<nat>, n: nat)
    returns (newStrip: seq<nat>, molNums: seq<int>, dists: seq<real>, firstAtoms: seq<int>)
    requires Fits(strip, mols, kept, n)
    requires forall k :: 0 <= k < n ==> mols[k].mask != []
    ensures newStrip == Placed(strip, mols, kept, n)
    ensures molNums == MolColumn(mols, n) && dists == DistColumn(mols, n)
    ensures firstAtoms == FirstAtomColumn(mols, n)
  {
    newStrip, molNums, dists, firstAtoms := strip, [], [], [];
    var solventMol := 0;
    while solventMol < n
      invariant 0 <= solventMol <= n
      invariant newStrip == Placed(strip, mols, kept, solventMol)
      invariant molNums == MolColumn(mols, solventMol) && dists == DistColumn(mols, solventMol)
      invariant firstAtoms == FirstAtomColumn(mols, solventMol)
    {
      var solvent := mols[solventMol];
      ColumnsStep(mols, solventMol);
      newStrip := Overwrite(newStrip, kept[solventMol], solvent.mask);
      molNums := molNums + [solvent.mol];
      dists := dists + [solvent.D];
      firstAtoms := firstAtoms + [solvent.mask[0] + 1];
      solventMol := solventMol + 1;
    }
  }

  /**
   * Number of keptWaterAtomNum_ entries the placement loop of the source
   * reads, counting from molecule solventMol: one per molecule, stopping
   * after the molecule that brings the count to closestWaters_ or at the
   * end of the solvent list.
   */
  function SlotReadsAsWritten(nsolvent: nat, keep: int, solventMol: nat): (r: nat)
    requires solventMol <= nsolvent
    ensures r <= nsolvent - solventMol
    ensures solventMol < nsolvent ==> r >= 1
    decreases nsolvent - solventMol
  {
    if solventMol == nsolvent then 0
    else if solventMol + 1 == keep then 1
    else 1 + SlotReadsAsWritten(nsolvent, keep, solventMol + 1)
  }

  /** With 1 <= closestWaters_ <= the solvent count the loop reads exactly the kept slots, as PlaceNearest does. */
  lemma {:induction false} SlotReadsMatchKeep(nsolvent: nat, keep: nat, solventMol: nat)
    requires solventMol < keep <= nsolvent
    ensures SlotReadsAsWritten(nsolvent, keep, solventMol) == keep - solventMol
    decreases keep - solventMol
  {
    if solventMol + 1 != keep {
      SlotReadsMatchKeep(nsolvent, keep, solventMol + 1);
    }
  }

  /**
   * With closestWaters_ == 0 the break never fires: the loop reads one
   * slot per solvent molecule, although keptWaterAtomNum_ has no entries.
   */
  lemma {:induction false} KeepZeroReadsPastEnd(nsolvent: nat, solventMol: nat)
    requires solventMol <= nsolvent
    ensures SlotReadsAsWritten(nsolvent, 0, solventMol) == nsolvent - solventMol
    decreases nsolvent - solventMol
  {
    if solventMol < nsolvent {
      KeepZeroReadsPastEnd(nsolvent, solventMol + 1);
    }
  }

  /**
   * The layout a successful setup leaves and every frame keeps: keep
   * (closestWaters_) is below the number of solvent molecules, one kept
   * slot per kept molecule, a non-empty distance mask, all solvent masks
   * of one non-zero size, every slot inside the strip mask and no two
   * slots overlapping.
   */
  ghost predicate Layout(keep: int, mols: seq<MolDist>, nsolvent: int, kept: seq<nat>, dm: seq<nat>, strip: seq<nat>) {
    && 0 <= keep < |mols| == nsolvent
    && |kept| == keep
    && dm != []
    && |mols[0].mask| >= 1
    && (forall j :: 0 <= j < |mols| ==> |mols[j].mask| == |mols[0].mask|)
    && Fits(strip, mols, kept, keep)
    && (forall k, l :: 0 <= k < l < keep ==> kept[k] + |mols[0].mask| <= kept[l])
  }

  /** Setup's walk over a uniform topology produces that layout. */
  lemma SetupLayout(top: seq<Molecule>, keep: nat, dm: seq<nat>)
    requires WellFormed(top) && Uniform(top) && keep < NSolvent(top, |top|) && dm != []
    ensures Layout(keep, SolventPrefix(top, |top|), NSolvent(top, |top|), KeptPrefix(top, |top|, keep), dm,
                   StripPrefix(top, |top|, keep))
  {
    SolventEntries(top, |top|);
    KeptOrdered(top, |top|, keep);
    var mols := SolventPrefix(top, |top|);
    assert top[mols[0].mol - 1].isSolvent;
    forall j | 0 <= j < |mols|
      ensures |mols[j].mask| == |mols[0].mask|
    {
      assert top[mols[j].mol - 1].isSolvent;
    }
  }

  /** A frame that reorders the molecules without changing their sizes keeps the layout. */
  lemma FrameLayout(keep: int, mols: seq<MolDist>, nsolvent: int, kept: seq<nat>, dm: seq<nat>, strip: seq<nat>,
                    mols': seq<MolDist>)
    requires Layout(keep, mols, nsolvent, kept, dm, strip)
    requires |mols'| == |mols|
    requires forall j :: 0 <= j < |mols'| ==> |mols'[j].mask| == |mols[0].mask|
    ensures Layout(keep, mols', nsolvent, kept, dm, strip)
    ensures Layout(keep, mols', nsolvent, kept, dm, Placed(strip, mols', kept, keep))
  {
  }

  /** A permutation of molecules that all have masks of one size has only masks of that size. */
  lemma PermutedSizes(a: seq<MolDist>, b: seq<MolDist>, size: nat)
    requires multiset(a) == multiset(b)
    requires forall j :: 0 <= j < |a| ==> |a[j].mask| == size
    ensures forall j :: 0 <= j < |b| ==> |b[j].mask| == size
  {
    forall j | 0 <= j < |b|
      ensures |b[j].mask| == size
    {
      assert b[j] in multiset(a);
    }
  }

  class Closest {
    var closestWaters: int
    var firstAtom: bool
    var useImage: bool
    var maskExpr: string
    var hasOutFile: bool
    // The four output data sets: frame, molecule number, squared distance, first atom.
    var frameData: seq<int>
    var molData: seq<int>
    var distData: seq<real>
    var atomData: seq<int>
    var nClosest: int
    var distanceMask: seq<nat>
    var solventMols: seq<MolDist>
    var stripMask: seq<nat>
    var keptWaterAtomNum: seq<nat>
    var nsolventMolecules: int

    constructor ()
      ensures closestWaters == 0 && !firstAtom && useImage && !hasOutFile && nClosest == 0
      ensures frameData == [] && molData == [] && distData == [] && atomData == []
      ensures nsolventMolecules == 0 && solventMols == [] && stripMask == [] && keptWaterAtomNum == []
    {
      closestWaters, firstAtom, useImage, maskExpr, hasOutFile := 0, false, true, "", false;
      frameData, molData, distData, atomData, nClosest := [], [], [], [], 0;
      distanceMask, solventMols, stripMask, keptWaterAtomNum, nsolventMolecules := [], [], [], [], 0;
    }

    /** The state a successful setup leaves and every frame keeps. */
    ghost predicate Ready()
      reads this
    {
      Layout(closestWaters, solventMols, nsolventMolecules, keptWaterAtomNum, distanceMask, stripMask)
    }

    /**
     * init: keepArg is the first integer argument (-1 when missing),
     * firstKey whether "oxygen" or "first" was given, noimageKey whether
     * "noimage" was; closestOut the "closestout" file name; setsOk and
     * fileOk whether the four data sets and the output file could be set
     * up; mask the solute mask expression.
     */
    method Init(keepArg: int, firstKey: bool, noimageKey: bool, closestOut: Option<string>,
                setsOk: bool, fileOk: bool, mask: Option<string>) returns (err: int)
      modifies this`closestWaters, this`firstAtom, this`useImage, this`maskExpr, this`hasOutFile
      modifies this`frameData, this`molData, this`distData, this`atomData
      ensures closestWaters == keepArg
      ensures err == 0 <==> keepArg >= 0 && (closestOut.Some? ==> setsOk && fileOk) && mask.Some?
      ensures keepArg < 0 ==> firstAtom == old(firstAtom) && useImage == old(useImage) && hasOutFile == old(hasOutFile)
      ensures keepArg >= 0 ==> firstAtom == (old(firstAtom) || firstKey) && useImage == !noimageKey
      ensures err == 0 ==> maskExpr == mask.value && hasOutFile == (old(hasOutFile) || closestOut.Some?)
      ensures err != 0 ==> maskExpr == old(maskExpr)
      ensures keepArg >= 0 && closestOut.Some? && setsOk ==>
                frameData == molData == atomData == [] && distData == [] && hasOutFile == fileOk
      ensures keepArg < 0 || closestOut.None? || !setsOk ==>
                frameData == old(frameData) && molData == old(molData) && distData == old(distData) &&
                atomData == old(atomData) && hasOutFile == old(hasOutFile)
    {
      closestWaters := keepArg;
      if closestWaters < 0 {
        return 1;
      }
      if firstKey {
        firstAtom := true;
      }
      useImage := !noimageKey;
      if closestOut.Some? {
        if !setsOk {
          return 1;
        }
        frameData, molData, distData, atomData := [], [], [], [];
        hasOutFile := fileOk;
        if !fileOk {
          return 1;
        }
      }
      if mask.None? {
        return 1;
      }
      maskExpr := mask.value;
      return 0;
    }

    /**
     * setup against a topology. maskAtoms is the distance mask as the
     * topology selects it (None when the selection fails); parmOk whether
     * the stripped topology could be built.
     */
    method Setup(top: seq<Molecule>, maskAtoms: Option<seq<nat>>, parmOk: bool) returns (err: int)
      requires WellFormed(top) && closestWaters >= 0
      modifies this`solventMols, this`stripMask, this`keptWaterAtomNum, this`distanceMask, this`nsolventMolecules
      ensures NSolvent(top, |top|) == 0 || closestWaters >= NSolvent(top, |top|) ==> err == 1 && unchanged(this)
      ensures err == 0 <==>
        0 <= closestWaters < NSolvent(top, |top|) && Uniform(top) &&
        maskAtoms.Some? && maskAtoms.value != [] && parmOk
      ensures err == 0 ==>
        && solventMols == SolventPrefix(top, |top|)
        && stripMask == StripPrefix(top, |top|, closestWaters)
        && keptWaterAtomNum == KeptPrefix(top, |top|, closestWaters)
        && distanceMask == maskAtoms.value
        && nsolventMolecules == NSolvent(top, |top|)
        && Ready()
    {
      var nsolvent := NSolvent(top, |top|);
      if nsolvent == 0 {
        return 1;
      }
      if closestWaters >= nsolvent {
        return 1;
      }
      var uniform;
      uniform, solventMols, stripMask, keptWaterAtomNum := WalkMolecules(top, closestWaters, nsolvent, keptWaterAtomNum);
      if !uniform {
        return 1;
      }
      if maskAtoms.None? {
        return 1;
      }
      distanceMask := maskAtoms.value;
      if distanceMask == [] {
        return 1;
      }
      nsolventMolecules := nsolvent;
      if !parmOk {
        return 1;
      }
      assert keptWaterAtomNum == keptWaterAtomNum[..Min(nsolvent, closestWaters)];
      SetupLayout(top, closestWaters, distanceMask);
      return 0;
    }

    /** The distance loop of the action: every solvent molecule gets its distance for this frame. */
    method MeasureSolvent(maxD: real, dist2: (nat, nat) -> real)
      requires Ready() && (firstAtom || |distanceMask| == 1)
      modifies this`solventMols
      ensures Ready()
      ensures solventMols == MeasureAll(old(solventMols), distanceMask, firstAtom, maxD, dist2)
    {
      var measured := MeasureMolecules(solventMols, distanceMask, firstAtom, maxD, dist2);
      FrameLayout(closestWaters, solventMols, nsolventMolecules, keptWaterAtomNum, distanceMask, stripMask, measured);
      solventMols := measured;
    }

    /** The sort of the action: nearest solvent molecule first. */
    method SortSolvent()
      requires Ready()
      modifies this`solventMols
      ensures Ready()
      ensures solventMols == InsertAll(old(solventMols))
    {
      var sorted := SortByDistance(solventMols);
      InsertAllSorts(solventMols);
      PermutedSizes(solventMols, sorted, |solventMols[0].mask|);
      FrameLayout(closestWaters, solventMols, nsolventMolecules, keptWaterAtomNum, distanceMask, stripMask, sorted);
      solventMols := sorted;
    }

    /**
     * The placement loop of the action: the nearest closestWaters_
     * molecules go into the kept slots of the strip mask and, with an
     * output file, into the four data sets.
     */
    method PlaceSolvent(frameNum: int)
      requires Ready()
      modifies this`stripMask, this`frameData, this`molData, this`distData, this`atomData, this`nClosest
      ensures Ready()
      ensures stripMask == Placed(old(stripMask), solventMols, keptWaterAtomNum, closestWaters)
      ensures hasOutFile ==>
        && frameData == old(frameData) + FrameColumn(frameNum + 1, closestWaters)
        && molData == old(molData) + MolColumn(solventMols, closestWaters)
        && distData == old(distData) + DistColumn(solventMols, closestWaters)
        && atomData == old(atomData) + FirstAtomColumn(solventMols, closestWaters)
        && nClosest == old(nClosest) + closestWaters
      ensures !hasOutFile ==>
        frameData == old(frameData) && molData == old(molData) && distData == old(distData) &&
        atomData == old(atomData) && nClosest == old(nClosest)
    {
      FrameLayout(closestWaters, solventMols, nsolventMolecules, keptWaterAtomNum, distanceMask, stripMask, solventMols);
      var strip, mols, dists, atoms := PlaceNearest(stripMask, solventMols, keptWaterAtomNum, closestWaters);
      stripMask := strip;
      if hasOutFile {
        frameData, molData, distData, atomData, nClosest :=
          frameData + FrameColumn(frameNum + 1, closestWaters), molData + mols, distData + dists,
          atomData + atoms, nClosest + closestWaters;
      }
    }

    /**
     * One frame: measure every solvent molecule, sort them by distance,
     * write the nearest closestWaters_ into their reserved slots of the
     * strip mask and record them in the output data sets. frameNum is the
     * 0-based frame number, maxD the starting distance (the largest
     * imaged distance, or the largest double without imaging), dist2 the
     * squared distance between two atoms of the frame.
     */
    method Action(frameNum: int, maxD: real, dist2: (nat, nat) -> real)
      requires Ready() && (firstAtom || |distanceMask| == 1)
      modifies this`solventMols, this`stripMask, this`frameData, this`molData, this`distData, this`atomData, this`nClosest
      ensures Ready()
      ensures solventMols == InsertAll(MeasureAll(old(solventMols), distanceMask, firstAtom, maxD, dist2))
      ensures Fits(old(stripMask), solventMols, keptWaterAtomNum, closestWaters)
      ensures stripMask == Placed(old(stripMask), solventMols, keptWaterAtomNum, closestWaters)
      ensures hasOutFile ==>
        && frameData == old(frameData) + FrameColumn(frameNum + 1, closestWaters)
        && molData == old(molData) + MolColumn(solventMols, closestWaters)
        && distData == old(distData) + DistColumn(solventMols, closestWaters)
        && atomData == old(atomData) + FirstAtomColumn(solventMols, closestWaters)
        && nClosest == old(nClosest) + closestWaters
      ensures !hasOutFile ==>
        frameData == old(frameData) && molData == old(molData) && distData == old(distData) &&
        atomData == old(atomData) && nClosest == old(nClosest)
    {
      MeasureSolvent(maxD, dist2);
      SortSolvent();
      PlaceSolvent(frameNum);
    }
  }

  /**
   * After a frame, the k-th kept slot of the strip mask holds the atoms of
   * the k-th nearest solvent molecule, and the solute atoms and every other
   * position are as before.
   */
  lemma ActionFillsSlots(strip: seq<nat>, mols: seq<MolDist>, kept: seq<nat>, n: nat, size: nat)
    requires Fits(strip, mols, kept, n)
    requires forall j :: 0 <= j < |mols| ==> |mols[j].mask| == size
    requires forall k, l :: 0 <= k < l < n ==> kept[k] + size <= kept[l]
    ensures forall k :: 0 <= k < n ==> Placed(strip, mols, kept, n)[kept[k]..kept[k] + size] == mols[k].mask
    ensures forall p :: 0 <= p < |strip| && (forall k :: 0 <= k < n ==> p < kept[k] || p >= kept[k] + size) ==>
      Placed(strip, mols, kept, n)[p] == strip[p]
  {
    PlacedSlots(strip, mols, kept, n);
  }
}
