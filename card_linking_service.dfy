/**
 * Card linking: an unlinked card names its type and its sets by string, and
 * linking replaces those names by the entries of lookup maps. An unknown type
 * name is an error; an unknown set name only drops that set.
 */
module CardLinkingService {
  import opened Wrappers
  import opened Ygo

  /** A card's appearance in a set, as it comes from the card data: the set's name. */
  datatype CardSetAppearance = CardSetAppearance(name: string)

  /** A card before linking: `typeName` is the name of its type and `sets` its appearances. */
  datatype UnlinkedCard = UnlinkedCard(
    passcode: string,
    name: string,
    description: string,
    typeName: string,
    subType: string,
    attribute: Option<string>,
    atk: Option<int>,
    def: Option<int>,
    level: Option<int>,
    pendulumScale: Option<int>,
    linkRating: Option<int>,
    linkMarkers: Option<seq<string>>,
    betaName: Option<string>,
    treatedAs: Option<string>,
    archetype: Option<string>,
    release: ReleaseInfo,
    sets: seq<CardSetAppearance>,
    formats: seq<Format>,
    banlist: BanlistInfo,
    image: Option<CardImage>,
    prices: CardPrices,
    views: int)

  /** The `TypeError` thrown for a type name the type map does not hold. */
  datatype LinkError = UnknownType(typeName: string)

  /** `linkType`: the type map's entry for the name, or an error naming the missing type. */
  function LinkType(typeName: string, typeCache: map<string, CardType>): (r: Result<CardType, LinkError>)
    ensures r.Ok? <==> typeName in typeCache
    ensures r.Ok? ==> r.value == typeCache[typeName]
    ensures r.Err? ==> r.error == UnknownType(typeName)
  {
    if typeName !in typeCache then Err(UnknownType(typeName))
    else Ok(typeCache[typeName])
  }

  /** The `map` step of `linkSets`: each appearance becomes its set, or null when the set map lacks its name. */
  function LookupSets(setAppearances: seq<CardSetAppearance>, setCache: map<string, CardSet>): (found: seq<Option<CardSet>>)
    ensures |found| == |setAppearances|
    ensures forall i :: 0 <= i < |found| ==>
      found[i] == if setAppearances[i].name in setCache then Some(setCache[setAppearances[i].name]) else None
  {
    seq(|setAppearances|, i requires 0 <= i < |setAppearances| =>
      if setAppearances[i].name in setCache then Some(setCache[setAppearances[i].name]) else None)
  }

  /** The `filter` step of `linkSets`: the non-null entries, in order. */
  function Present(found: seq<Option<CardSet>>): (sets: seq<CardSet>)
    ensures |sets| <= |found|
  {
    if found == [] then []
    else (if found[0].Some? then [found[0].value] else []) + Present(found[1..])
  }

  /** `linkSets`: the sets of the appearances whose names the set map holds, in appearance order. */
  function LinkSets(setAppearances: seq<CardSetAppearance>, setCache: map<string, CardSet>): (sets: seq<CardSet>)
    ensures |sets| <= |setAppearances|
  {
    Present(LookupSets(setAppearances, setCache))
  }

  /** Every appearance names a set the set map holds. */
  predicate AllKnown(setAppearances: seq<CardSetAppearance>, setCache: map<string, CardSet>) {
    forall i :: 0 <= i < |setAppearances| ==> setAppearances[i].name in setCache
  }

  /**
   * `linkCard`: the unlinked card's fields copied, with the type and the sets
   * linked; fails exactly when the type does.
   */
  function LinkCard(unlinkedCard: UnlinkedCard, setMap: map<string, CardSet>, typeMap: map<string, CardType>)
    : (r: Result<Card, LinkError>)
    ensures r.Ok? <==> unlinkedCard.typeName in typeMap
    ensures r.Err? ==> r.error == UnknownType(unlinkedCard.typeName)
    ensures r.Ok? ==> r.value.cardType == typeMap[unlinkedCard.typeName]
    ensures r.Ok? ==> r.value.sets == LinkSets(unlinkedCard.sets, setMap)
    ensures r.Ok? ==>
      && r.value.passcode == unlinkedCard.passcode
      && r.value.name == unlinkedCard.name
      && r.value.description == unlinkedCard.description
      && r.value.subType == unlinkedCard.subType
      && r.value.attribute == unlinkedCard.attribute
      && r.value.atk == unlinkedCard.atk
      && r.value.def == unlinkedCard.def
      && r.value.level == unlinkedCard.level
      && r.value.pendulumScale == unlinkedCard.pendulumScale
      && r.value.linkRating == unlinkedCard.linkRating
      && r.value.linkMarkers == unlinkedCard.linkMarkers
      && r.value.image == unlinkedCard.image
      && r.value.prices == unlinkedCard.prices
      && r.value.betaName == unlinkedCard.betaName
      && r.value.treatedAs == unlinkedCard.treatedAs
      && r.value.archetype == unlinkedCard.archetype
      && r.value.formats == unlinkedCard.formats
      && r.value.release == unlinkedCard.release
      && r.value.banlist == unlinkedCard.banlist
      && r.value.views == unlinkedCard.views
  {
    var cardType :- LinkType(unlinkedCard.typeName, typeMap);
    Ok(Card(
      unlinkedCard.passcode,
      unlinkedCard.name,
      unlinkedCard.description,
      cardType,
      unlinkedCard.subType,
      unlinkedCard.attribute,
      unlinkedCard.atk,
      unlinkedCard.def,
      unlinkedCard.level,
      unlinkedCard.pendulumScale,
      unlinkedCard.linkRating,
      unlinkedCard.linkMarkers,
      unlinkedCard.betaName,
      unlinkedCard.treatedAs,
      unlinkedCard.archetype,
      unlinkedCard.release,
      LinkSets(unlinkedCard.sets, setMap),
      unlinkedCard.formats,
      unlinkedCard.banlist,
      unlinkedCard.image,
      unlinkedCard.prices,
      unlinkedCard.views))
  }

  /** The filter works run by run. */
  lemma {:induction false} PresentAppend(a: seq<Option<CardSet>>, b: seq<Option<CardSet>>)
    ensures Present(a + b) == Present(a) + Present(b)
  {
    if a == [] {
      assert a + b == b;
    } else {
      var ab := a + b;
      assert ab[0] == a[0] && ab[1..] == a[1..] + b;
      var head: seq<CardSet> := if a[0].Some? then [a[0].value] else [];
      assert Present(ab) == head + Present(a[1..] + b);
      PresentAppend(a[1..], b);
      assert Present(a) == head + Present(a[1..]);
      assert head + (Present(a[1..]) + Present(b)) == (head + Present(a[1..])) + Present(b);
    }
  }

  /** The filter keeps every entry exactly when none is null. */
  lemma {:induction false} PresentLength(found: seq<Option<CardSet>>)
    ensures |Present(found)| == |found| <==> forall i :: 0 <= i < |found| ==> found[i].Some?
  {
    if found != [] {
      PresentLength(found[1..]);
      if found[0].Some? {
        assert forall i :: 1 <= i < |found| ==> found[i] == found[1..][i - 1];
      } else {
        assert |Present(found)| < |found|;
      }
    }
  }

  /** A set is in the result exactly when some entry holds it. */
  lemma {:induction false} PresentMembers(found: seq<Option<CardSet>>, s: CardSet)
    ensures s in Present(found) <==> exists i :: 0 <= i < |found| && found[i] == Some(s)
  {
    if found != [] {
      PresentMembers(found[1..], s);
      if s in Present(found[1..]) {
        var i :| 0 <= i < |found[1..]| && found[1..][i] == Some(s);
        assert found[i + 1] == Some(s);
      }
      if exists i :: 0 <= i < |found| && found[i] == Some(s) {
        var i :| 0 <= i < |found| && found[i] == Some(s);
        if i > 0 {
          assert found[1..][i - 1] == Some(s);
        }
      }
    }
  }

  /** With no nulls, the filter gives the values in their positions. */
  lemma {:induction false} PresentAllSome(found: seq<Option<CardSet>>)
    requires forall i :: 0 <= i < |found| ==> found[i].Some?
    ensures |Present(found)| == |found|
    ensures forall i :: 0 <= i < |found| ==> Present(found)[i] == found[i].value
  {
    PresentLength(found);
    if found != [] {
      PresentAllSome(found[1..]);
    }
  }

  /** `linkSets` keeps every appearance exactly when every set name is known; otherwise it returns fewer sets. */
  lemma LinkSetsLength(setAppearances: seq<CardSetAppearance>, setCache: map<string, CardSet>)
    ensures |LinkSets(setAppearances, setCache)| == |setAppearances| <==> AllKnown(setAppearances, setCache)
    ensures !AllKnown(setAppearances, setCache) ==> |LinkSets(setAppearances, setCache)| < |setAppearances|
  {
    var found := LookupSets(setAppearances, setCache);
    PresentLength(found);
    assert AllKnown(setAppearances, setCache) <==> forall i :: 0 <= i < |found| ==> found[i].Some?;
  }

  /** When every name is known, the i-th linked set is the set map's entry for the i-th appearance. */
  lemma LinkSetsAllKnown(setAppearances: seq<CardSetAppearance>, setCache: map<string, CardSet>)
    requires AllKnown(setAppearances, setCache)
    ensures |LinkSets(setAppearances, setCache)| == |setAppearances|
    ensures forall i :: 0 <= i < |setAppearances| ==>
      LinkSets(setAppearances, setCache)[i] == setCache[setAppearances[i].name]
  {
    PresentAllSome(LookupSets(setAppearances, setCache));
  }

  /** A set is linked exactly when some appearance names it through the set map. */
  lemma LinkSetsMembers(setAppearances: seq<CardSetAppearance>, setCache: map<string, CardSet>, s: CardSet)
    ensures s in LinkSets(setAppearances, setCache) <==>
      exists i :: 0 <= i < |setAppearances| && setAppearances[i].name in setCache && setCache[setAppearances[i].name] == s
  {
    var found := LookupSets(setAppearances, setCache);
    PresentMembers(found, s);
    if s in LinkSets(setAppearances, setCache) {
      var i :| 0 <= i < |found| && found[i] == Some(s);
      assert setAppearances[i].name in setCache && setCache[setAppearances[i].name] == s;
    }
    if exists i :: 0 <= i < |setAppearances| && setAppearances[i].name in setCache && setCache[setAppearances[i].name] == s {
      var i :| 0 <= i < |setAppearances| && setAppearances[i].name in setCache && setCache[setAppearances[i].name] == s;
      assert found[i] == Some(s);
    }
  }

  /** `linkSets` keeps order: linking two runs of appearances one after the other gives their sets one after the other. */
  lemma LinkSetsAppend(a: seq<CardSetAppearance>, b: seq<CardSetAppearance>, setCache: map<string, CardSet>)
    ensures LinkSets(a + b, setCache) == LinkSets(a, setCache) + LinkSets(b, setCache)
  {
    assert LookupSets(a + b, setCache) == LookupSets(a, setCache) + LookupSets(b, setCache);
    PresentAppend(LookupSets(a, setCache), LookupSets(b, setCache));
  }

  /** An appearance whose name is unknown contributes nothing. */
  lemma LinkSetsUnknown(a: seq<CardSetAppearance>, x: CardSetAppearance, b: seq<CardSetAppearance>, setCache: map<string, CardSet>)
    requires x.name !in setCache
    ensures LinkSets(a + [x] + b, setCache) == LinkSets(a + b, setCache)
  {
    LinkSetsAppend(a + [x], b, setCache);
    LinkSetsAppend(a, [x], setCache);
    LinkSetsAppend(a, b, setCache);
    assert LookupSets([x], setCache) == [None];
    var none: seq<Option<CardSet>> := [None];
    assert none[1..] == [];
    assert Present(none) == [];
  }

  /** Whether a card links depends only on its type name and the type map: the sets never make it fail. */
  lemma LinkCardIgnoresSets(unlinkedCard: UnlinkedCard, setMap1: map<string, CardSet>, setMap2: map<string, CardSet>, typeMap: map<string, CardType>)
    ensures LinkCard(unlinkedCard, setMap1, typeMap).Ok? == LinkCard(unlinkedCard, setMap2, typeMap).Ok?
    ensures LinkCard(unlinkedCard, setMap1, typeMap).Ok? ==>
      LinkCard(unlinkedCard, setMap1, typeMap).value.(sets := []) == LinkCard(unlinkedCard, setMap2, typeMap).value.(sets := [])
  {
  }
}
