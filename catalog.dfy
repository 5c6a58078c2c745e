/** The catalog half of arrange_cards_from_json: the deck table becomes a map
    from deck number to the deck's two image URLs, and the contained objects
    become the ordered list of cards whose deck is in that map. The export is
    taken as already decoded: deck keys are already whole numbers. */
module Catalog {

  datatype Option<T> = None | Some(value: T)

  /** One customDeck entry: the deck's face sheet and back image URLs. */
  datatype DeckInfo = DeckInfo(faceURL: string, backURL: string)

  /** One record of containedObjects; nickname is None when the record has no such key. */
  datatype ContainedObject = ContainedObject(cardID: int, nickname: Option<string>)

  /** One entry of the cards list. */
  datatype Card = Card(cardID: int, faceURL: string, backURL: string, nickname: string)

  /** cardID // 100: Python's floor division, which for the positive divisor
      100 is Dafny's division, negative IDs included. */
  function DeckNumber(cardID: int): (d: int)
    ensures d * 100 <= cardID < d * 100 + 100
  {
    cardID / 100
  }

  // ---------------------------------------------------------------------
  // The deck table

  /** card_id_to_urls after the loop over customDeck: entries are inserted
      in order, so a later entry with the same deck number replaces an earlier one. */
  function DeckMap(customDeck: seq<(int, DeckInfo)>): (r: map<int, DeckInfo>)
    ensures |r| <= |customDeck|
    decreases |customDeck|
  {
    if customDeck == [] then map[]
    else
      var last := customDeck[|customDeck| - 1];
      DeckMap(customDeck[..|customDeck| - 1])[last.0 := last.1]
  }

  /** Every deck in the table is in the map, and nothing else is. */
  lemma {:induction false} DeckMapKeys(customDeck: seq<(int, DeckInfo)>)
    ensures DeckMap(customDeck).Keys == set i | 0 <= i < |customDeck| :: customDeck[i].0
    decreases |customDeck|
  {
    if customDeck != [] {
      var n := |customDeck| - 1;
      var prefix := customDeck[..n];
      DeckMapKeys(prefix);
      assert forall i :: 0 <= i < n ==> prefix[i] == customDeck[i];
      assert (set i | 0 <= i < |customDeck| :: customDeck[i].0)
          == (set i | 0 <= i < n :: prefix[i].0) + {customDeck[n].0};
    }
  }

  /** A deck number maps to the URLs of the last table entry with that number. */
  lemma {:induction false} DeckMapLastWins(customDeck: seq<(int, DeckInfo)>, i: nat)
    requires i < |customDeck|
    requires forall j :: i < j < |customDeck| ==> customDeck[j].0 != customDeck[i].0
    ensures customDeck[i].0 in DeckMap(customDeck)
    ensures DeckMap(customDeck)[customDeck[i].0] == customDeck[i].1
    decreases |customDeck|
  {
    var n := |customDeck| - 1;
    if i < n {
      var prefix := customDeck[..n];
      assert forall j :: i < j < n ==> prefix[j] == customDeck[j];
      DeckMapLastWins(prefix, i);
    }
  }

  /** Lines 81-86: build card_id_to_urls from the deck table. */
  method BuildDeckMap(customDeck: seq<(int, DeckInfo)>) returns (cardIdToUrls: map<int, DeckInfo>)
    ensures cardIdToUrls == DeckMap(customDeck)
  {
    cardIdToUrls := map[];
    for i := 0 to |customDeck|
      invariant cardIdToUrls == DeckMap(customDeck[..i])
    {
      var (deckNumber, deckInfo) := customDeck[i];
      assert customDeck[..i + 1][..i] == customDeck[..i];
      cardIdToUrls := cardIdToUrls[deckNumber := DeckInfo(deckInfo.faceURL, deckInfo.backURL)];
    }
    assert customDeck[..|customDeck|] == customDeck;
  }

  // ---------------------------------------------------------------------
  // Resolving contained objects to cards

  /** The object's deck is in the map, so the object yields a card. */
  predicate Resolvable(decks: map<int, DeckInfo>, obj: ContainedObject) {
    DeckNumber(obj.cardID) in decks
  }

  /** The card a resolvable object yields: its ID and nickname (empty when
      absent) with its deck's two URLs. */
  function CardOf(decks: map<int, DeckInfo>, obj: ContainedObject): Card
    requires Resolvable(decks, obj)
  {
    var urls := decks[DeckNumber(obj.cardID)];
    Card(obj.cardID, urls.faceURL, urls.backURL,
         match obj.nickname case Some(name) => name case None => "")
  }

  /** The cards list after the loop over containedObjects: an object whose
      deck is missing is skipped. */
  function Resolved(decks: map<int, DeckInfo>, objs: seq<ContainedObject>): (r: seq<Card>)
    ensures |r| <= |objs|
    decreases |objs|
  {
    if objs == [] then []
    else
      var last := objs[|objs| - 1];
      Resolved(decks, objs[..|objs| - 1]) + (if Resolvable(decks, last) then [CardOf(decks, last)] else [])
  }

  /** The positions of the objects whose deck is in the map. */
  function ResolvablePositions(decks: map<int, DeckInfo>, objs: seq<ContainedObject>): set<int> {
    set k | 0 <= k < |objs| && Resolvable(decks, objs[k])
  }

  /** Lines 89-101: resolve each contained object in order. */
  method ResolveCards(cardIdToUrls: map<int, DeckInfo>, containedObjects: seq<ContainedObject>)
    returns (cards: seq<Card>)
    ensures cards == Resolved(cardIdToUrls, containedObjects)
  {
    cards := [];
    for i := 0 to |containedObjects|
      invariant cards == Resolved(cardIdToUrls, containedObjects[..i])
    {
      var obj := containedObjects[i];
      assert containedObjects[..i + 1][..i] == containedObjects[..i];
      var deckNumber := obj.cardID / 100;
      if deckNumber in cardIdToUrls {
        var cardUrls := cardIdToUrls[deckNumber];
        var nickname := match obj.nickname case Some(name) => name case None => "";
        cards := cards + [Card(obj.cardID, cardUrls.faceURL, cardUrls.backURL, nickname)];
      }
    }
    assert containedObjects[..|containedObjects|] == containedObjects;
  }

  /** The number of cards is the number of objects whose deck resolves. */
  lemma {:induction false} ResolvedCount(decks: map<int, DeckInfo>, objs: seq<ContainedObject>)
    ensures |Resolved(decks, objs)| == |ResolvablePositions(decks, objs)|
    decreases |objs|
  {
    if objs != [] {
      var n := |objs| - 1;
      var prefix := objs[..n];
      ResolvedCount(decks, prefix);
      assert forall k :: 0 <= k < n ==> prefix[k] == objs[k];
      var before := ResolvablePositions(decks, prefix);
      if Resolvable(decks, objs[n]) {
        assert ResolvablePositions(decks, objs) == before + {n};
      } else {
        assert ResolvablePositions(decks, objs) == before;
      }
    }
  }

  /** Resolving a catalog split in two resolves each part, earlier objects'
      cards first: resolution keeps containment order. */
  lemma {:induction false} ResolvedAppend(decks: map<int, DeckInfo>, a: seq<ContainedObject>, b: seq<ContainedObject>)
    ensures Resolved(decks, a + b) == Resolved(decks, a) + Resolved(decks, b)
    decreases |b|
  {
    if b != [] {
      var n := |b| - 1;
      assert (a + b)[..|a + b| - 1] == a + b[..n];
      ResolvedAppend(decks, a, b[..n]);
    } else {
      assert a + b == a;
    }
  }

  /** An object whose deck is missing contributes nothing and raises no error. */
  lemma DroppedObject(decks: map<int, DeckInfo>, a: seq<ContainedObject>, obj: ContainedObject, b: seq<ContainedObject>)
    requires !Resolvable(decks, obj)
    ensures Resolved(decks, a + [obj] + b) == Resolved(decks, a + b)
  {
    ResolvedAppend(decks, a + [obj], b);
    ResolvedAppend(decks, a, [obj]);
    ResolvedAppend(decks, a, b);
    assert [obj][..0] == [];
  }

  /** The cards are exactly the resolvable objects' cards, in containment
      order: idx lists, increasing, the positions of the objects that yield
      them, and an object's position is listed exactly when its deck resolves. */
  lemma {:induction false} ResolvedIsSubsequence(decks: map<int, DeckInfo>, objs: seq<ContainedObject>)
    returns (idx: seq<nat>)
    ensures |idx| == |Resolved(decks, objs)|
    ensures forall i :: 0 <= i < |idx| ==>
      idx[i] < |objs| && Resolvable(decks, objs[idx[i]]) && Resolved(decks, objs)[i] == CardOf(decks, objs[idx[i]])
    ensures forall i, j :: 0 <= i < j < |idx| ==> idx[i] < idx[j]
    ensures forall k :: 0 <= k < |objs| ==> (Resolvable(decks, objs[k]) <==> k in idx)
    decreases |objs|
  {
    if objs == [] {
      idx := [];
    } else {
      var n := |objs| - 1;
      var prefix := objs[..n];
      var before := ResolvedIsSubsequence(decks, prefix);
      assert forall k :: 0 <= k < n ==> prefix[k] == objs[k];
      if Resolvable(decks, objs[n]) {
        idx := before + [n];
      } else {
        idx := before;
      }
    }
  }

  /** Every card carries the URLs of deck cardID // 100. */
  lemma CardsCarryDeckUrls(decks: map<int, DeckInfo>, objs: seq<ContainedObject>)
    ensures forall c :: c in Resolved(decks, objs) ==>
      DeckNumber(c.cardID) in decks &&
      c.faceURL == decks[DeckNumber(c.cardID)].faceURL &&
      c.backURL == decks[DeckNumber(c.cardID)].backURL
  {
    var idx := ResolvedIsSubsequence(decks, objs);
    forall c | c in Resolved(decks, objs)
      ensures DeckNumber(c.cardID) in decks
      ensures c.faceURL == decks[DeckNumber(c.cardID)].faceURL
      ensures c.backURL == decks[DeckNumber(c.cardID)].backURL
    {
      var i :| 0 <= i < |Resolved(decks, objs)| && Resolved(decks, objs)[i] == c;
      assert c == CardOf(decks, objs[idx[i]]);
    }
  }
}
