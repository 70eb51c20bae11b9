/**
 * Replica-exchange log data set (src/DataSet_RemLog.cpp): one sequence of
 * exchange records per replica. The record and dimension types are not
 * part of this model, so they are type parameters.
 */
module RemLog {

  /**
   * Length of the shortest member, taken as a running minimum from the
   * front: it bounds every member from below and one member attains it.
   */
  function MinLength<F>(e: seq<seq<F>>): (m: nat)
    requires e != []
    ensures forall i :: 0 <= i < |e| ==> m <= |e[i]|
    ensures exists i :: 0 <= i < |e| && |e[i]| == m
    decreases |e|
  {
    if |e| == 1 then |e[0]|
    else
      var p := e[..|e| - 1];
      var m := MinLength(p);
      assert forall i :: 0 <= i < |p| ==> p[i] == e[i];
      if |e[|e| - 1]| < m then |e[|e| - 1]| else m
  }

  /** The ensemble is consistent when every member is as long as the first. */
  ghost predicate SameLength<F>(e: seq<seq<F>>)
    requires e != []
  {
    forall i :: 0 <= i < |e| ==> |e[i]| == |e[0]|
  }

  /** Number of exchanges as NumExchange reports it: 0 with no members, else the first member's length. */
  function NumExchangeOf<F>(e: seq<seq<F>>): nat
  {
    if e == [] then 0 else |e[0]|
  }

  /** Every member cut to the shortest length, as TrimLastExchange leaves the ensemble. */
  function Trimmed<F>(e: seq<seq<F>>): (t: seq<seq<F>>)
    ensures |t| == |e|
  {
    if e == [] then [] else seq(|e|, i requires 0 <= i < |e| => e[i][..MinLength(e)])
  }

  /**
   * After trimming, every member is a prefix of what it was, all have the
   * old minimum length, the ensemble is consistent and its exchange count
   * is that minimum.
   */
  lemma TrimmedIsConsistent<F>(e: seq<seq<F>>)
    requires e != []
    ensures forall i :: 0 <= i < |e| ==> |Trimmed(e)[i]| == MinLength(e) && Trimmed(e)[i] <= e[i]
    ensures SameLength(Trimmed(e))
    ensures NumExchangeOf(Trimmed(e)) == MinLength(e)
  {
  }

  /** Trimming a consistent ensemble changes nothing. */
  lemma TrimmedConsistentIsUnchanged<F>(e: seq<seq<F>>)
    requires e != [] && SameLength(e)
    ensures Trimmed(e) == e
    ensures NumExchangeOf(e) == MinLength(e)
  {
    var j :| 0 <= j < |e| && |e[j]| == MinLength(e);
    assert MinLength(e) == |e[0]|;
    assert forall i :: 0 <= i < |e| ==> Trimmed(e)[i] == e[i];
  }

  /** Trimming twice is the same as trimming once. */
  lemma TrimmedIdempotent<F>(e: seq<seq<F>>)
    ensures Trimmed(Trimmed(e)) == Trimmed(e)
  {
    if e != [] {
      TrimmedIsConsistent(e);
      TrimmedConsistentIsUnchanged(Trimmed(e));
    }
  }

  class DataSetRemLog<F, GroupDim, RepInfo, RepDim> {
    var ensemble: seq<seq<F>>
    var groupDims: seq<GroupDim>
    var repInfo: seq<RepInfo>
    var repDims: seq<RepDim>

    constructor ()
      ensures ensemble == [] && groupDims == [] && repInfo == [] && repDims == []
    {
      ensemble, groupDims, repInfo, repDims := [], [], [], [];
    }

    /**
     * Replaces the ensemble by n empty members and stores the dimension
     * tables. A negative n makes the resize fail (the size converts to an
     * unsigned value beyond any vector's maximum and the resize throws):
     * ok is then false, the ensemble has already been cleared and the
     * tables are untouched.
     */
    method AllocateReplicas(n: int, gdimIn: seq<GroupDim>, repInfoIn: seq<RepInfo>, repDimIn: seq<RepDim>)
      returns (ok: bool)
      modifies this
      ensures ok <==> n >= 0
      ensures ok ==> |ensemble| == n && forall i :: 0 <= i < n ==> ensemble[i] == []
      ensures ok ==> groupDims == gdimIn && repInfo == repInfoIn && repDims == repDimIn
      ensures !ok ==> ensemble == [] && groupDims == old(groupDims) && repInfo == old(repInfo) && repDims == old(repDims)
    {
      ensemble := [];
      if n < 0 {
        return false;
      }
      ensemble := seq(n, _ => []);
      groupDims := gdimIn;
      repInfo := repInfoIn;
      repDims := repDimIn;
      return true;
    }

    function NumExchange(): (r: nat)
      reads this
      ensures ensemble == [] ==> r == 0
      ensures ensemble != [] && SameLength(ensemble) ==> forall i :: 0 <= i < |ensemble| ==> r == |ensemble[i]|
    {
      NumExchangeOf(ensemble)
    }

    /** Checks that every member has as many exchanges as the first. */
    method ValidEnsemble() returns (ok: bool)
      requires ensemble != []
      ensures ok <==> SameLength(ensemble)
    {
      var firstSize := |ensemble[0]|;
      var member := 0;
      while member < |ensemble|
        invariant 0 <= member <= |ensemble|
        invariant forall i :: 0 <= i < member ==> |ensemble[i]| == firstSize
      {
        if |ensemble[member]| != firstSize {
          return false;
        }
        member := member + 1;
      }
      return true;
    }

    /** Cuts every member to the length of the shortest one. */
    method TrimLastExchange()
      modifies this
      ensures ensemble == Trimmed(old(ensemble))
      ensures groupDims == old(groupDims) && repInfo == old(repInfo) && repDims == old(repDims)
    {
      if ensemble == [] {
        return;
      }
      var minSize := |ensemble[0]|;
      var member := 1;
      while member < |ensemble|
        invariant 1 <= member <= |ensemble|
        invariant minSize == MinLength(ensemble[..member])
        invariant groupDims == old(groupDims) && repInfo == old(repInfo) && repDims == old(repDims)
      {
        assert ensemble[..member + 1][..member] == ensemble[..member];
        if |ensemble[member]| < minSize {
          minSize := |ensemble[member]|;
        }
        member := member + 1;
      }
      assert ensemble[..member] == ensemble;
      ghost var e0 := ensemble;
      member := 0;
      while member < |ensemble|
        invariant 0 <= member <= |ensemble| == |e0|
        invariant forall i :: 0 <= i < member ==> ensemble[i] == e0[i][..minSize]
        invariant forall i :: member <= i < |ensemble| ==> ensemble[i] == e0[i]
        invariant minSize == MinLength(e0)
        invariant groupDims == old(groupDims) && repInfo == old(repInfo) && repDims == old(repDims)
      {
        ensemble := ensemble[member := ensemble[member][..minSize]];
        member := member + 1;
      }
    }
  }
}
