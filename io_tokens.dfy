/**
 * Registry of file-format objects: each IO token pairs a format object
 * with the keywords and file extensions that select it (src/IO_Token.h),
 * tokens are kept in an append-only list (src/IOtokenList.h,
 * src/IOtokenList.cpp), and IO::AddIO builds a token from a counted
 * argument list (src/IO.cpp).
 */
module IOTokens {
  import opened Wrappers

  /** Identity of an IO_Object; None stands for the null pointer. */
  type ObjectId = nat

  /** One token: format object, its keywords and its extensions. */
  datatype IOToken = IOToken(obj: Option<ObjectId>, keys: seq<string>, exts: seq<string>)
  {
    /** True when the token holds no object. */
    predicate Empty() { obj.None? }

    /** The stored object. */
    function Obj(): (o: ObjectId)
      requires !Empty()
      ensures Some(o) == obj
    {
      obj.value
    }
  }

  /** Default constructor: a token with no object, keywords or extensions. */
  function DefaultToken(): (t: IOToken)
    ensures t.Empty() && t.keys == [] && t.exts == []
  {
    IOToken(None, [], [])
  }

  /** Three-argument constructor: stores the object, keywords and extensions as given. */
  function MakeToken(o: Option<ObjectId>, k: seq<string>, e: seq<string>): (t: IOToken)
    ensures t.obj == o && t.keys == k && t.exts == e
    ensures o.Some? ==> !t.Empty() && t.Obj() == o.value
  {
    IOToken(o, k, e)
  }

  /**
   * The list of tokens. Public operations only append or clear it; no
   * operation changes a token already in it. `freed` records, in order,
   * each token whose IO_Token::Clear was called (that routine frees the
   * token's object; its body is not part of this model).
   */
  class IOtokenList {
    var ioList: seq<IOToken>
    var freed: seq<IOToken>

    constructor ()
      ensures ioList == [] && freed == []
    {
      ioList := [];
      freed := [];
    }

    /** Iteration from begin() to end() visits exactly these tokens, in insertion order. */
    function Tokens(): (ts: seq<IOToken>)
      reads this
      ensures |ts| == |ioList| && forall i :: 0 <= i < |ts| ==> ts[i] == ioList[i]
    {
      ioList
    }

    method Add(t: IOToken)
      modifies this
      ensures ioList == old(ioList) + [t]
      ensures ioList[..|old(ioList)|] == old(ioList)
      ensures ioList != [] && Back() == t
      ensures freed == old(freed)
    {
      ioList := ioList + [t];
    }

    /** The most recently added token. */
    function Back(): (t: IOToken)
      reads this
      requires ioList != []
      ensures t in ioList && t == ioList[|ioList| - 1]
    {
      ioList[|ioList| - 1]
    }

    /** Clears every token once, front to back, then empties the list. */
    method Clear()
      modifies this
      ensures ioList == []
      ensures freed == old(freed) + old(ioList)
    {
      var i := 0;
      while i < |ioList|
        invariant 0 <= i <= |ioList|
        invariant ioList == old(ioList)
        invariant freed == old(freed) + ioList[..i]
      {
        freed := freed + [ioList[i]];
        i := i + 1;
      }
      ioList := [];
    }

    /** The destructor: it only delegates to Clear. */
    method Destroy()
      modifies this
      ensures ioList == []
      ensures freed == old(freed) + old(ioList)
    {
      Clear();
    }
  }

  /** Number of keyword arguments IO::AddIO reads: its key loop runs while nk < nKeys. */
  function KeyCount(nKeys: int): nat { if nKeys < 0 then 0 else nKeys }

  /** Number of extension arguments IO::AddIO reads: nTotal - nKeys, none if that is not positive. */
  function ExtCount(nKeys: int, nTotal: int): nat { if nTotal - nKeys < 0 then 0 else nTotal - nKeys }

  /**
   * Splits the counted variable argument list of IO::AddIO: the first
   * nKeys arguments are keywords, the next nTotal - nKeys extensions.
   * The caller must pass at least that many arguments.
   */
  method SplitArgs(nKeys: int, nTotal: int, args: seq<string>) returns (keys: seq<string>, exts: seq<string>)
    requires KeyCount(nKeys) + ExtCount(nKeys, nTotal) <= |args|
    ensures |keys| == KeyCount(nKeys) && |exts| == ExtCount(nKeys, nTotal)
    ensures forall i :: 0 <= i < |keys| ==> keys[i] == args[i]
    ensures forall i :: 0 <= i < |exts| ==> exts[i] == args[|keys| + i]
    ensures 0 <= nKeys <= nTotal ==> |keys| + |exts| == nTotal
    ensures nKeys >= nTotal ==> exts == []
  {
    var nExts := nTotal - nKeys;
    var next := 0;
    keys, exts := [], [];
    var nk := 0;
    while nk < nKeys
      invariant nk <= KeyCount(nKeys)
      invariant next == nk == |keys|
      invariant forall i :: 0 <= i < |keys| ==> keys[i] == args[i]
    {
      keys := keys + [args[next]];
      next := next + 1;
      nk := nk + 1;
    }
    var ne := 0;
    while ne < nExts
      invariant ne <= ExtCount(nKeys, nTotal)
      invariant next == |keys| + ne && ne == |exts|
      invariant forall i :: 0 <= i < |exts| ==> exts[i] == args[|keys| + i]
    {
      exts := exts + [args[next]];
      next := next + 1;
      ne := ne + 1;
    }
  }

  /**
   * IO::AddIO: builds a token from the object and the split arguments and
   * appends it to the master token list (the static member `tokens_`,
   * passed here explicitly).
   */
  method AddIO(tokens: IOtokenList, o: Option<ObjectId>, nKeys: int, nTotal: int, args: seq<string>)
    requires KeyCount(nKeys) + ExtCount(nKeys, nTotal) <= |args|
    modifies tokens
    ensures |tokens.ioList| == |old(tokens.ioList)| + 1
    ensures tokens.ioList[..|old(tokens.ioList)|] == old(tokens.ioList)
    ensures tokens.Back().obj == o
    ensures tokens.Back().keys == args[..KeyCount(nKeys)]
    ensures tokens.Back().exts == args[KeyCount(nKeys)..KeyCount(nKeys) + ExtCount(nKeys, nTotal)]
    ensures tokens.freed == old(tokens.freed)
  {
    var keys, exts := SplitArgs(nKeys, nTotal, args);
    tokens.Add(MakeToken(o, keys, exts));
  }
}
