/** The list of (ability, display) pairs of the client and the query for the one display they are all on. */
module AbilityDisplays {
  import opened DmTypes

  type Token = nat
  datatype Entry = Entry(token: Token, displayId: Id)

  predicate Refused(token: Option<Token>, id: Id) {
    token.None? || id == INVALID_ID
  }

  function Added(list: seq<Entry>, token: Option<Token>, id: Id): seq<Entry> {
    if Refused(token, id) || Entry(token.value, id) in list then list else list + [Entry(token.value, id)]
  }

  /** Only the oldest entry of the token goes. */
  function Removed(list: seq<Entry>, token: Token): seq<Entry> {
    if list == [] then []
    else if list[0].token == token then list[1..]
    else [list[0]] + Removed(list[1..], token)
  }

  function Without(list: seq<Entry>, token: Token): (r: seq<Entry>)
    ensures forall e :: e in r <==> e in list && e.token != token
  {
    if list == [] then []
    else (if list[0].token == token then [] else [list[0]]) + Without(list[1..], token)
  }

  function Updated(list: seq<Entry>, token: Option<Token>, id: Id): seq<Entry> {
    if Refused(token, id) then list else Without(list, token.value) + [Entry(token.value, id)]
  }

  datatype Event =
    | Add(token: Option<Token>, id: Id)
    | Remove(token: Option<Token>)
    | Update(token: Option<Token>, id: Id)

  function Step(list: seq<Entry>, e: Event): seq<Entry> {
    match e
    case Add(token, id) => Added(list, token, id)
    case Remove(token) => if token.None? then list else Removed(list, token.value)
    case Update(token, id) => Updated(list, token, id)
  }

  function Run(events: seq<Event>): seq<Entry> {
    if events == [] then [] else Step(Run(events[..|events| - 1]), events[|events| - 1])
  }

  predicate Valid(list: seq<Entry>) {
    && (forall i :: 0 <= i < |list| ==> list[i].displayId != INVALID_ID)
    && (forall i, j :: 0 <= i < j < |list| ==> list[i] != list[j])
  }

  /** The position of the oldest entry of a token, or the length. */
  function FirstOf(list: seq<Entry>, token: Token): (k: nat)
    ensures k <= |list| && forall i :: 0 <= i < k ==> list[i].token != token
    ensures k < |list| ==> list[k].token == token
  {
    if list == [] || list[0].token == token then 0 else 1 + FirstOf(list[1..], token)
  }

  lemma {:induction false} RemovedAt(list: seq<Entry>, token: Token, k: nat)
    requires k <= |list| && (forall i :: 0 <= i < k ==> list[i].token != token)
    requires k < |list| ==> list[k].token == token
    ensures Removed(list, token) == if k < |list| then list[..k] + list[k + 1..] else list
  {
    if k > 0 {
      RemovedAt(list[1..], token, k - 1);
      assert k < |list| ==> [list[0]] + (list[1..][..k - 1] + list[1..][k..]) == list[..k] + list[k + 1..];
    }
  }

  /** A removal takes out one entry, the oldest of its token, if there is one. */
  lemma {:induction false} RemovedIsValid(list: seq<Entry>, token: Token)
    requires Valid(list)
    ensures var after := Removed(list, token);
            && Valid(after)
            && (if forall i :: 0 <= i < |list| ==> list[i].token != token then after == list
                else exists k :: 0 <= k < |list| && list[k].token == token
                       && (forall i :: 0 <= i < k ==> list[i].token != token)
                       && after == list[..k] + list[k + 1..])
  {
    hide Removed, Valid;
    var k := FirstOf(list, token);
    RemovedAt(list, token, k);
    if k < |list| {
      CutIsValid(list, k);
    }
  }

  lemma CutIsValid(list: seq<Entry>, k: nat)
    requires Valid(list) && k < |list|
    ensures Valid(list[..k] + list[k + 1..])
  {
    var after := list[..k] + list[k + 1..];
    assert forall i :: 0 <= i < |after| ==> after[i] == list[if i < k then i else i + 1];
  }

  lemma {:induction false} WithoutIsValid(list: seq<Entry>, token: Token)
    requires Valid(list)
    ensures Valid(Without(list, token))
  {
    if list != [] {
      WithoutIsValid(list[1..], token);
    }
  }

  lemma StepKeepsValid(list: seq<Entry>, e: Event)
    requires Valid(list)
    ensures Valid(Step(list, e))
  {
    match e
    case Add(_, _) =>
    case Remove(token) =>
      if token.Some? {
        RemovedIsValid(list, token.value);
      }
    case Update(token, _) =>
      if token.Some? {
        WithoutIsValid(list, token.value);
      }
  }

  /** No invalid id and no pair twice is ever stored. */
  lemma {:induction false} RunIsValid(events: seq<Event>)
    ensures Valid(Run(events))
  {
    if events != [] {
      RunIsValid(events[..|events| - 1]);
      StepKeepsValid(Run(events[..|events| - 1]), events[|events| - 1]);
    }
  }

  /** An addition puts its pair at the end of the list, unless the pair is there already; without a token or with an
      invalid display nothing is added. */
  lemma AdditionAdds(list: seq<Entry>, token: Option<Token>, id: Id)
    requires Valid(list)
    ensures var after := Step(list, Add(token, id));
            && list <= after
            && (token.None? || id == INVALID_ID ==> after == list)
            && (token.Some? && id != INVALID_ID ==>
                  multiset(after)[Entry(token.value, id)] == 1
                  && after[|list|..] == if Entry(token.value, id) in list then [] else [Entry(token.value, id)])
  {
    var after := Step(list, Add(token, id));
    assert after[..|list|] == list;
    if token.Some? && id != INVALID_ID {
      StepKeepsValid(list, Add(token, id));
      ValidCounts(after, Entry(token.value, id));
    }
  }

  lemma {:induction false} ValidCounts(list: seq<Entry>, e: Entry)
    requires Valid(list) && e in list
    ensures multiset(list)[e] == 1
  {
    assert list == [list[0]] + list[1..];
    if list[0] != e {
      ValidCounts(list[1..], e);
    }
  }

  /** What is kept by an update stays in its order. */
  lemma {:induction false} WithoutKeepsOrder(a: seq<Entry>, b: seq<Entry>, token: Token)
    ensures Without(a + b, token) == Without(a, token) + Without(b, token)
  {
    if a == [] {
      assert a + b == b;
    } else {
      assert (a + b)[1..] == a[1..] + b;
      WithoutKeepsOrder(a[1..], b, token);
    }
  }

  /** An update leaves its token with the one entry it carries, last in the list, and the other tokens with theirs. */
  lemma UpdateLeavesOneEntry(list: seq<Entry>, token: Token, id: Id)
    requires id != INVALID_ID
    ensures var after := Step(list, Update(Some(token), id));
            && (forall e :: e in after <==> e == Entry(token, id) || (e in list && e.token != token))
            && (forall i :: 0 <= i < |after| && after[i].token == token ==> i == |after| - 1)
  {
    var kept := Without(list, token);
    forall i | 0 <= i < |kept| ensures kept[i].token != token {
      assert kept[i] in kept;
    }
  }

  /** Without a token, and for an update with an invalid display, the list stays as it is. */
  lemma RefusedEventsChangeNothing(list: seq<Entry>, token: Option<Token>, id: Id)
    ensures Step(list, Remove(None)) == list
    ensures token.None? || id == INVALID_ID ==> Step(list, Update(token, id)) == list
  {}

  /** std::find_if: the position of the first entry of the token, or the length. */
  method FindToken(list: seq<Entry>, token: Token) returns (k: nat)
    ensures k <= |list| && forall i :: 0 <= i < k ==> list[i].token != token
    ensures k < |list| ==> list[k].token == token
    ensures Removed(list, token) == if k < |list| then list[..k] + list[k + 1..] else list
  {
    k := 0;
    while k < |list| && list[k].token != token
      invariant k <= |list| && forall i :: 0 <= i < k ==> list[i].token != token
    {
      k := k + 1;
    }
    RemovedAt(list, token, k);
  }

  class DisplayIdList {
    var displayIdList: seq<Entry>

    constructor ()
      ensures displayIdList == [] && Valid(displayIdList)
    {
      displayIdList := [];
    }

    method AddDisplayIdFromAms(id: Id, token: Option<Token>)
      requires Valid(displayIdList)
      modifies this
      ensures Valid(displayIdList) && displayIdList == Step(old(displayIdList), Add(token, id))
    {
      StepKeepsValid(displayIdList, Add(token, id));
      if token.None? || id == INVALID_ID {
        return;
      }
      if Entry(token.value, id) !in displayIdList {
        displayIdList := displayIdList + [Entry(token.value, id)];
      }
    }

    method RemoveDisplayIdFromAms(token: Option<Token>)
      requires Valid(displayIdList)
      modifies this
      ensures Valid(displayIdList) && displayIdList == Step(old(displayIdList), Remove(token))
    {
      StepKeepsValid(displayIdList, Remove(token));
      if token.None? {
        return;
      }
      var i := FindToken(displayIdList, token.value);
      if i < |displayIdList| {
        displayIdList := displayIdList[..i] + displayIdList[i + 1..];
      }
    }

    method UpdateDisplayIdFromAms(id: Id, token: Option<Token>)
      requires Valid(displayIdList)
      modifies this
      ensures Valid(displayIdList) && displayIdList == Step(old(displayIdList), Update(token, id))
    {
      StepKeepsValid(displayIdList, Update(token, id));
      if token.None? || id == INVALID_ID {
        return;
      }
      if displayIdList == [] {
        displayIdList := [Entry(token.value, id)];
        return;
      }
      displayIdList := Without(displayIdList, token.value) + [Entry(token.value, id)];
    }

    /** The counting loop with its early exit: a display is returned exactly if the list is not empty and all of its
        entries are on that display. */
    method GetCallingAbilityDisplayId() returns (id: Id)
      requires Valid(displayIdList)
      ensures id != INVALID_ID <==>
                displayIdList != [] && forall e :: e in displayIdList ==> e.displayId == displayIdList[0].displayId
      ensures id != INVALID_ID ==> id == displayIdList[0].displayId
    {
      var list := displayIdList;
      var displayId := INVALID_ID;
      if list == [] {
        return displayId;
      }
      var displayCount := 0;
      var k := 0;
      while k < |list| && displayCount <= 1
        invariant k <= |list|
        invariant displayId == if k == 0 then INVALID_ID else list[k - 1].displayId
        invariant displayCount == 0 <==> k == 0
        invariant displayCount <= 1 <==> forall i :: 0 <= i < k ==> list[i].displayId == list[0].displayId
      {
        if displayId == INVALID_ID || displayId != list[k].displayId {
          displayCount := displayCount + 1;
        }
        displayId := list[k].displayId;
        k := k + 1;
      }
      return if displayCount == 1 then displayId else INVALID_ID;
    }
  }
}
