/**
 * The renaming loop at the end of `matchChainsWithDifferentChainIds` (src/clients/TokenClient.ts):
 * bridges to the same chain are given one chain name, in place.
 */
module BridgeNames {
  import opened Basics

  /** An IBC bridge; `other` stands for its remaining fields. */
  class Bridge {
    var chainName: string
    var chainIdName: string
    var other: int
  }

  /** What the loop reads of a bridge. */
  datatype Entry = Entry(chainId: string, name: string)

  /** The first bridge of a chain that has a name. */
  function FirstNamed(es: seq<Entry>, chainId: string): (r: Option<nat>)
    ensures match r
            case Some(k) =>
              && k < |es| && es[k].chainId == chainId && es[k].name != ""
              && forall i :: 0 <= i < k && es[i].chainId == chainId ==> es[i].name == ""
            case None => forall i :: 0 <= i < |es| && es[i].chainId == chainId ==> es[i].name == ""
  {
    if es == [] then None
    else if es[0].chainId == chainId && es[0].name != "" then Some(0)
    else match FirstNamed(es[1..], chainId)
      case Some(k) => Some(k + 1)
      case None => None
  }

  /** The name a bridge ends up with: that of the first named bridge of its chain, unless it comes before it. */
  function UnifiedName(es: seq<Entry>, i: nat): string
    requires i < |es|
  {
    match FirstNamed(es, es[i].chainId)
    case Some(k) => if k <= i then es[k].name else es[i].name
    case None => es[i].name
  }

  /** Bridge `first` is the first one of its chain. */
  predicate IsFirst(es: seq<Entry>, first: nat) {
    first < |es| && forall j :: 0 <= j < first ==> es[j].chainId != es[first].chainId
  }

  /** All bridges of the chain get the name of its first bridge. */
  predicate AllNamedLike(es: seq<Entry>, first: nat)
    requires first < |es|
  {
    forall i :: 0 <= i < |es| && es[i].chainId == es[first].chainId ==> UnifiedName(es, i) == es[first].name
  }

  /**
   * All bridges of a chain get the name of its first bridge exactly when that is not empty, or
   * all names of the chain are empty.
   */
  lemma NamesOfFirstBridges(es: seq<Entry>, first: nat)
    requires IsFirst(es, first)
    ensures AllNamedLike(es, first) <==>
            || es[first].name != ""
            || forall i :: 0 <= i < |es| && es[i].chainId == es[first].chainId ==> es[i].name == ""
  {
    if AllNamedLike(es, first) && es[first].name == "" {
      forall i | 0 <= i < |es| && es[i].chainId == es[first].chainId
        ensures es[i].name == ""
      {
        assert UnifiedName(es, i) == "";
      }
    }
  }

  /** A bridge without a name before a named one keeps the empty name: the chain ends up with two names. */
  lemma EmptyNameIsKept(chainId: string, name: string)
    requires name != ""
    ensures var es := [Entry(chainId, ""), Entry(chainId, name)];
            UnifiedName(es, 0) == "" && UnifiedName(es, 1) == name && IsFirst(es, 0) && !AllNamedLike(es, 0)
  {
    var es := [Entry(chainId, ""), Entry(chainId, name)];
    assert es[1].name != "" && FirstNamed(es, chainId) == Some(1);
    assert UnifiedName(es, 1) == name;
  }

  /** Unifying twice changes nothing more. */
  lemma UnificationIsStable(es: seq<Entry>, i: nat)
    requires i < |es|
    ensures var us := seq(|es|, j requires 0 <= j < |es| => Entry(es[j].chainId, UnifiedName(es, j)));
            UnifiedName(us, i) == UnifiedName(es, i)
  {
    var us := seq(|es|, j requires 0 <= j < |es| => Entry(es[j].chainId, UnifiedName(es, j)));
    var id := es[i].chainId;
    match FirstNamed(es, id)
    case Some(k) => assert us[k].name != "";
    case None => assert forall j :: 0 <= j < |us| && us[j].chainId == id ==> us[j].name == "";
  }

  ghost function Entries(bridges: seq<Bridge>): seq<Entry>
    reads bridges
  {
    seq(|bridges|, i requires 0 <= i < |bridges| reads bridges => Entry(bridges[i].chainIdName, bridges[i].chainName))
  }

  predicate Distinct(bridges: seq<Bridge>) {
    forall i, j :: 0 <= i < j < |bridges| ==> bridges[i] != bridges[j]
  }

  /** A missing entry is as good as an empty one. */
  function Lookup(chainMap: map<string, string>, id: string): string {
    if id in chainMap then chainMap[id] else ""
  }

  /** The name of the first named bridge of a chain, if it is among the first i. */
  function NamedBefore(es: seq<Entry>, chainId: string, i: nat): string {
    match FirstNamed(es, chainId)
    case Some(k) => if k < i then es[k].name else ""
    case None => ""
  }

  lemma NamedBeforeNext(es: seq<Entry>, chainId: string, i: nat)
    requires i < |es|
    ensures NamedBefore(es, chainId, i + 1) ==
            if NamedBefore(es, chainId, i) == "" && es[i].chainId == chainId then es[i].name
            else NamedBefore(es, chainId, i)
    ensures es[i].chainId == chainId ==>
              UnifiedName(es, i) == if NamedBefore(es, chainId, i) == "" then es[i].name else NamedBefore(es, chainId, i)
  {
  }

  /** A chain named before i passes that name on to its later bridges. */
  lemma NamedBeforePassesOn(es: seq<Entry>, i: nat, j: nat)
    requires i <= j < |es| && NamedBefore(es, es[j].chainId, i) != ""
    ensures UnifiedName(es, j) == NamedBefore(es, es[j].chainId, i)
  {
  }

  lemma AllPassOn(es: seq<Entry>, chainId: string, i: nat)
    requires NamedBefore(es, chainId, i) != ""
    ensures forall j :: i <= j < |es| && es[j].chainId == chainId ==> UnifiedName(es, j) == NamedBefore(es, chainId, i)
  {
    forall j | i <= j < |es| && es[j].chainId == chainId
      ensures UnifiedName(es, j) == NamedBefore(es, chainId, i)
    {
      NamedBeforePassesOn(es, i, j);
    }
  }

  ghost predicate Holds(chainMap: map<string, string>, es: seq<Entry>, i: nat) {
    forall id :: Lookup(chainMap, id) == NamedBefore(es, id, i)
  }

  lemma HoldsKept(chainMap: map<string, string>, es: seq<Entry>, i: nat)
    requires i < |es| && Holds(chainMap, es, i) && Lookup(chainMap, es[i].chainId) != ""
    ensures Holds(chainMap, es, i + 1)
  {
    forall id
      ensures Lookup(chainMap, id) == NamedBefore(es, id, i + 1)
    {
      NamedBeforeNext(es, id, i);
    }
  }

  lemma HoldsAdded(chainMap: map<string, string>, es: seq<Entry>, i: nat)
    requires i < |es| && Holds(chainMap, es, i) && Lookup(chainMap, es[i].chainId) == ""
    ensures Holds(chainMap[es[i].chainId := es[i].name], es, i + 1)
  {
    var next := chainMap[es[i].chainId := es[i].name];
    forall id
      ensures Lookup(next, id) == NamedBefore(es, id, i + 1)
    {
      NamedBeforeNext(es, id, i);
      assert Lookup(chainMap, id) == NamedBefore(es, id, i);
    }
  }

  ghost function Names(bridges: seq<Bridge>): seq<string>
    reads bridges
  {
    seq(|bridges|, i requires 0 <= i < |bridges| reads bridges => bridges[i].chainName)
  }

  /** The names after i turns of the outer loop: those passed and those checked are unified, the others as they were. */
  ghost predicate Unified(names: seq<string>, checked: seq<bool>, es: seq<Entry>, i: nat) {
    && |names| == |checked| == |es|
    && (forall j :: 0 <= j < |es| ==> names[j] == if j < i || checked[j] then UnifiedName(es, j) else es[j].name)
    && (forall j :: 0 <= j < |es| && checked[j] ==> NamedBefore(es, es[j].chainId, i) != "")
  }

  /** A bridge that keeps its name: it has been checked, or is the first of its chain to have one, or none has. */
  lemma UnifiedKept(names: seq<string>, checked: seq<bool>, es: seq<Entry>, i: nat)
    requires i < |es| && Unified(names, checked, es, i)
    requires checked[i] || NamedBefore(es, es[i].chainId, i) == ""
    ensures Unified(names, checked, es, i + 1)
  {
    NamedBeforeNext(es, es[i].chainId, i);
    forall j | 0 <= j < |es| && checked[j]
      ensures NamedBefore(es, es[j].chainId, i + 1) != ""
    {
      NamedBeforeNext(es, es[j].chainId, i);
    }
  }

  /** A bridge of a chain with a known name: it and the later ones of the chain get that name. */
  lemma UnifiedRenamed(names: seq<string>, checked: seq<bool>, names': seq<string>, checked': seq<bool>, es: seq<Entry>, i: nat)
    requires i < |es| && Unified(names, checked, es, i) && NamedBefore(es, es[i].chainId, i) != ""
    requires |names'| == |checked'| == |es|
    requires forall j :: 0 <= j < |es| ==>
               if i <= j && es[j].chainId == es[i].chainId then names'[j] == NamedBefore(es, es[i].chainId, i) && checked'[j]
               else names'[j] == names[j] && checked'[j] == checked[j]
    ensures Unified(names', checked', es, i + 1)
  {
    AllPassOn(es, es[i].chainId, i);
    forall j | 0 <= j < |es|
      ensures checked'[j] ==> NamedBefore(es, es[j].chainId, i + 1) != ""
      ensures names'[j] == if j < i + 1 || checked'[j] then UnifiedName(es, j) else es[j].name
    {
      NamedBeforeNext(es, es[j].chainId, i);
      assert names[j] == if j < i || checked[j] then UnifiedName(es, j) else es[j].name;
    }
  }

  lemma UnifiedAtEnd(names: seq<string>, checked: seq<bool>, es: seq<Entry>)
    requires Unified(names, checked, es, |es|)
    ensures |names| == |es| && forall j :: 0 <= j < |es| ==> names[j] == UnifiedName(es, j)
  {
  }

  /** Renames the bridges of a chain from position i on: the inner loop. */
  method RenameFrom(newBridges: seq<Bridge>, checkedBefore: array<bool>, i: nat, chainId: string, chainName: string)
    requires i <= |newBridges| == checkedBefore.Length && Distinct(newBridges)
    modifies (set b | b in newBridges)`chainName, checkedBefore
    ensures forall j :: 0 <= j < |newBridges| ==>
              if i <= j && newBridges[j].chainIdName == chainId
              then newBridges[j].chainName == chainName && checkedBefore[j]
              else newBridges[j].chainName == old(newBridges[j].chainName) && checkedBefore[j] == old(checkedBefore[j])
  {
    for j := i to |newBridges|
      invariant forall k :: 0 <= k < |newBridges| ==>
                  if i <= k < j && newBridges[k].chainIdName == chainId
                  then newBridges[k].chainName == chainName && checkedBefore[k]
                  else newBridges[k].chainName == old(newBridges[k].chainName) && checkedBefore[k] == old(checkedBefore[k])
    {
      var subBridge := newBridges[j];
      if subBridge.chainIdName == chainId {
        subBridge.chainName := chainName;
        checkedBefore[j] := true;
      }
    }
  }

  /** The inner loop as the outer one uses it: with the name known for the chain of bridge i. */
  method RenameChain(newBridges: seq<Bridge>, checkedBefore: array<bool>, i: nat, chainName: string, ghost es: seq<Entry>)
    requires i < |newBridges| == checkedBefore.Length && Distinct(newBridges) && |es| == |newBridges|
    requires forall j :: 0 <= j < |es| ==> es[j].chainId == newBridges[j].chainIdName
    requires Unified(Names(newBridges), checkedBefore[..], es, i)
    requires chainName == NamedBefore(es, es[i].chainId, i) != ""
    modifies (set b | b in newBridges)`chainName, checkedBefore
    ensures Unified(Names(newBridges), checkedBefore[..], es, i + 1)
  {
    ghost var names, checked := Names(newBridges), checkedBefore[..];
    RenameFrom(newBridges, checkedBefore, i, newBridges[i].chainIdName, chainName);
    UnifiedRenamed(names, checked, Names(newBridges), checkedBefore[..], es, i);
  }

  /** One turn of the outer loop. */
  method UnifyBridge(newBridges: seq<Bridge>, checkedBefore: array<bool>, i: nat, chainMap: map<string, string>, ghost es: seq<Entry>)
    returns (chainMap': map<string, string>)
    requires i < |newBridges| == checkedBefore.Length && Distinct(newBridges) && |es| == |newBridges|
    requires forall j :: 0 <= j < |es| ==> es[j].chainId == newBridges[j].chainIdName
    requires Unified(Names(newBridges), checkedBefore[..], es, i) && Holds(chainMap, es, i)
    modifies (set b | b in newBridges)`chainName, checkedBefore
    ensures Unified(Names(newBridges), checkedBefore[..], es, i + 1) && Holds(chainMap', es, i + 1)
  {
    var bridge := newBridges[i];
    var chainId := bridge.chainIdName;
    ghost var names, checked := Names(newBridges), checkedBefore[..];
    assert Lookup(chainMap, chainId) == NamedBefore(es, chainId, i);
    chainMap' := chainMap;
    if checkedBefore[i] {
      UnifiedKept(names, checked, es, i);
      HoldsKept(chainMap, es, i);
    } else if chainId in chainMap && chainMap[chainId] != "" {
      HoldsKept(chainMap, es, i);
      RenameChain(newBridges, checkedBefore, i, chainMap[chainId], es);
    } else {
      assert bridge.chainName == names[i] == es[i].name;
      UnifiedKept(names, checked, es, i);
      HoldsAdded(chainMap, es, i);
      chainMap' := chainMap[chainId := bridge.chainName];
    }
  }

  method UnifyChainNames(newBridges: seq<Bridge>)
    requires Distinct(newBridges)
    modifies (set b | b in newBridges)`chainName
    ensures forall i :: 0 <= i < |newBridges| ==> newBridges[i].chainName == UnifiedName(old(Entries(newBridges)), i)
  {
    ghost var es := Entries(newBridges);
    var checkedBefore := new bool[|newBridges|](_ => false);
    var chainMap: map<string, string> := map[];
    for i := 0 to |newBridges|
      invariant Unified(Names(newBridges), checkedBefore[..], es, i)
      invariant Holds(chainMap, es, i)
    {
      chainMap := UnifyBridge(newBridges, checkedBefore, i, chainMap, es);
    }
    UnifiedAtEnd(Names(newBridges), checkedBefore[..], es);
  }
}
