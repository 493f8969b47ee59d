/** The search layer shared by the services (shared/search/search.go): index
    configurations, the settings sent to Meilisearch, typed search results and
    the search for identifiers. Meilisearch itself is outside the model: its
    answers are inputs, and its filter language is modelled by the meaning of
    the conditions the stores build. */
module Search {
  import opened Common
  import opened Json

  // ---------------------------------------------------------------------------
  // Documents and filters

  /** A value stored in a search document; `DTexts` is a list of texts in
      order. */
  datatype DocValue = DStr(s: string) | DBool(b: bool) | DId(id: Id) | DIds(ids: set<Id>) | DTexts(items: seq<string>) | DInt(n: int) | DRaw(raw: Raw) | DNull

  type Document = map<string, DocValue>

  /** One condition of a filter: `attr = 'v'`, `attr = null`, `attr != null`,
      `attr >= n`, `attr <= n`. */
  datatype Cond = Eq(attr: string, v: DocValue) | IsNull(attr: string) | NotNull(attr: string) | AtLeast(attr: string, n: int) | AtMost(attr: string, n: int)

  /** Meilisearch's reading of a condition: equality with a list attribute
      means that the list holds the value; an absent attribute is null. */
  predicate Holds(d: Document, c: Cond) {
    match c
    case Eq(a, v) =>
      && a in d
      && (|| d[a] == v
          || (d[a].DIds? && v.DId? && v.id in d[a].ids)
          || (d[a].DTexts? && v.DStr? && v.s in d[a].items))
    case IsNull(a) => a !in d || d[a].DNull?
    case NotNull(a) => a in d && !d[a].DNull?
    case AtLeast(a, n) => a in d && d[a].DInt? && d[a].n >= n
    case AtMost(a, n) => a in d && d[a].DInt? && d[a].n <= n
  }

  /** A filter is a list of groups; every group needs one condition that
      holds. An empty filter matches everything. */
  predicate Matches(d: Document, filter: seq<seq<Cond>>) {
    forall g :: 0 <= g < |filter| ==> GroupHolds(d, filter[g])
  }

  /** One group of a filter holds iff one of its conditions does. */
  predicate GroupHolds(d: Document, group: seq<Cond>) {
    exists k :: 0 <= k < |group| && Holds(d, group[k])
  }

  /** A filter built from two parts matches iff both parts do. */
  lemma {:induction false} MatchesConcat(d: Document, a: seq<seq<Cond>>, b: seq<seq<Cond>>)
    ensures Matches(d, a + b) <==> Matches(d, a) && Matches(d, b)
  {
    var ab := a + b;
    if Matches(d, a) && Matches(d, b) {
      forall g | 0 <= g < |ab| ensures GroupHolds(d, ab[g]) {
        if g < |a| { assert ab[g] == a[g]; } else { assert ab[g] == b[g - |a|]; }
      }
    }
    if Matches(d, ab) {
      forall g | 0 <= g < |a| ensures GroupHolds(d, a[g]) {
        assert ab[g] == a[g];
      }
      forall g | 0 <= g < |b| ensures GroupHolds(d, b[g]) {
        assert ab[|a| + g] == b[g];
      }
    }
  }

  lemma MatchesSingle(d: Document, group: seq<Cond>)
    ensures Matches(d, [group]) <==> GroupHolds(d, group)
  {
    assert [group][0] == group;
  }

  /** A filter of one single-condition group matches iff the condition
      holds. */
  lemma MatchesOne(d: Document, c: Cond)
    ensures Matches(d, [[c]]) <==> Holds(d, c)
  {
    MatchesSingle(d, [c]);
    assert [c][0] == c;
  }

  lemma MatchesEmpty(d: Document)
    ensures Matches(d, [])
  {
  }

  /** The conditions one optional group puts on a document. */
  lemma OptionalGroup(d: Document, present: bool, group: seq<Cond>)
    ensures Matches(d, if present then [group] else []) <==> (present ==> GroupHolds(d, group))
  {
    if present { MatchesSingle(d, group); } else { MatchesEmpty(d); }
  }

  /** The group `attr = 'e1' OR attr = 'e2' OR ...` over a list of ids. */
  function AnyOf(attr: string, ids: seq<Id>): (group: seq<Cond>)
    ensures |group| == |ids|
    ensures forall k :: 0 <= k < |ids| ==> group[k] == Eq(attr, DId(ids[k]))
  {
    Map((id: Id) => Eq(attr, DId(id)), ids)
  }

  /** On an id-list attribute, such a group holds iff the list shares an id
      with the attribute. */
  lemma AnyOfHolds(d: Document, attr: string, ids: seq<Id>, s: set<Id>)
    requires attr in d && d[attr] == DIds(s)
    ensures GroupHolds(d, AnyOf(attr, ids)) <==> exists k :: 0 <= k < |ids| && ids[k] in s
  {
    var group := AnyOf(attr, ids);
    if exists k :: 0 <= k < |ids| && ids[k] in s {
      var k :| 0 <= k < |ids| && ids[k] in s;
      assert Holds(d, group[k]);
    }
  }

  // ---------------------------------------------------------------------------
  // Index configuration and settings

  datatype IndexConfig = IndexConfig(
    primaryKey: string,
    searchable: seq<string>,
    ranking: Option<seq<string>>,
    filterable: seq<string>,
    sortable: seq<string>)

  /** `client.IndexConfig`: the configuration of a known index. */
  function IndexConfigOf(configs: map<string, IndexConfig>, index: string): (r: Result<IndexConfig>)
    ensures r.Ok? <==> index in configs
    ensures r.Ok? ==> r.value == configs[index]
    ensures r.Err? ==> r.code == Internal
  {
    if index in configs then Ok(configs[index]) else Err(Internal)
  }

  /** `meilisearch.Settings`; a nil setting is `None`. Typo tolerance,
      pagination and faceting are carried as opaque text. */
  datatype Settings = Settings(
    rankingRules: Option<seq<string>>,
    distinctAttribute: Option<string>,
    searchableAttributes: Option<seq<string>>,
    displayedAttributes: Option<seq<string>>,
    stopWords: Option<seq<string>>,
    synonyms: Option<map<string, seq<string>>>,
    filterableAttributes: Option<seq<string>>,
    sortableAttributes: Option<seq<string>>,
    typoTolerance: Option<string>,
    pagination: Option<string>,
    faceting: Option<string>)

  const NoSettings: Settings := Settings(None, None, None, None, None, None, None, None, None, None, None)

  /** `genMSSettings`: the primary key is the distinct and the only displayed
      attribute; the attribute lists are taken over as they are. */
  function GenMSSettings(config: IndexConfig): (s: Settings)
    ensures s.distinctAttribute == Some(config.primaryKey)
    ensures s.displayedAttributes == Some([config.primaryKey])
    ensures s.searchableAttributes == Some(config.searchable)
    ensures s.filterableAttributes == Some(config.filterable)
    ensures s.sortableAttributes == Some(config.sortable)
    ensures s.rankingRules == config.ranking
    ensures s.stopWords.None? && s.synonyms.None? && s.typoTolerance.None? && s.pagination.None? && s.faceting.None?
  {
    Settings(config.ranking, Some(config.primaryKey), Some(config.searchable), Some([config.primaryKey]),
             None, None, Some(config.filterable), Some(config.sortable), None, None, None)
  }

  /** `shouldUpdateStringSlice` as written: the element comparison returns
      true on a difference and true after the loop as well. */
  function ShouldUpdateListAsWritten(current: Option<seq<string>>, wanted: Option<seq<string>>): (r: bool)
    ensures r <==> wanted.Some?
  {
    if wanted.None? then false
    else if |Flatten(current)| != |wanted.value| then true
    else true
  }

  /** `shouldUpdateStringSlice` as its name says: a new list that differs from
      the current one. */
  function ShouldUpdateList(current: Option<seq<string>>, wanted: Option<seq<string>>): (r: bool)
    ensures r <==> wanted.Some? && Flatten(current) != wanted.value
  {
    wanted.Some? && Flatten(current) != wanted.value
  }

  /** A nil list reads as the empty list. */
  function Flatten(s: Option<seq<string>>): seq<string> {
    if s.None? then [] else s.value
  }

  /** `shouldUpdateStringPtr` as written: true on a difference and true
      without one. */
  function ShouldUpdateTextAsWritten(current: Option<string>, wanted: Option<string>): (r: bool)
    ensures r <==> wanted.Some?
  {
    if wanted.None? then false
    else if current.None? then true
    else if current != wanted then true
    else true
  }

  function ShouldUpdateText(current: Option<string>, wanted: Option<string>): (r: bool)
    ensures r <==> wanted.Some? && current != wanted
  {
    wanted.Some? && current != wanted
  }

  /** `shouldUpdateStringSliceMap`: a new key, a nil new list or a changed
      list. */
  predicate ShouldUpdateMap(current: Option<map<string, seq<string>>>, wanted: Option<map<string, seq<string>>>) {
    && wanted.Some?
    && var cur := if current.None? then map[] else current.value;
       exists k :: k in wanted.value && (k !in cur || cur[k] != wanted.value[k])
  }

  /** `shouldUpdateStringSliceMap` as written: the loop over the new keys
      returns at the first one, because the list comparison it asks answers
      true for every new list; an empty new map is never sent. */
  function ShouldUpdateMapAsWritten(current: Option<map<string, seq<string>>>, wanted: Option<map<string, seq<string>>>): (r: bool)
    ensures r <==> wanted.Some? && |wanted.value| > 0
    ensures ShouldUpdateMap(current, wanted) ==> r
  {
    wanted.Some? && wanted.value != map[]
  }

  /** `removeUnchangedFromMSSettings` with the comparisons as written. The
      sortable attributes are never taken over. */
  function RemoveUnchangedAsWritten(current: Settings, wanted: Settings): (r: Settings)
    ensures wanted.rankingRules.None? ==> r.rankingRules.None?
    ensures wanted.distinctAttribute.None? ==> r.distinctAttribute.None?
    ensures wanted.searchableAttributes.None? ==> r.searchableAttributes.None?
    ensures wanted.displayedAttributes.None? ==> r.displayedAttributes.None?
    ensures wanted.stopWords.None? ==> r.stopWords.None?
    ensures wanted.synonyms.None? ==> r.synonyms.None?
    ensures wanted.filterableAttributes.None? ==> r.filterableAttributes.None?
    ensures r.sortableAttributes.None?
    ensures r.typoTolerance == wanted.typoTolerance && r.pagination == wanted.pagination && r.faceting == wanted.faceting
    ensures r.rankingRules == wanted.rankingRules && r.distinctAttribute == wanted.distinctAttribute
    ensures r.searchableAttributes == wanted.searchableAttributes && r.displayedAttributes == wanted.displayedAttributes
    ensures r.stopWords == wanted.stopWords && r.filterableAttributes == wanted.filterableAttributes
    ensures r.synonyms.Some? <==> wanted.synonyms.Some? && |wanted.synonyms.value| > 0
    ensures r.synonyms.Some? ==> r.synonyms == wanted.synonyms
  {
    Settings(
      if ShouldUpdateListAsWritten(current.rankingRules, wanted.rankingRules) then wanted.rankingRules else None,
      if ShouldUpdateTextAsWritten(current.distinctAttribute, wanted.distinctAttribute) then wanted.distinctAttribute else None,
      if ShouldUpdateListAsWritten(current.searchableAttributes, wanted.searchableAttributes) then wanted.searchableAttributes else None,
      if ShouldUpdateListAsWritten(current.displayedAttributes, wanted.displayedAttributes) then wanted.displayedAttributes else None,
      if ShouldUpdateListAsWritten(current.stopWords, wanted.stopWords) then wanted.stopWords else None,
      if ShouldUpdateMapAsWritten(current.synonyms, wanted.synonyms) then wanted.synonyms else None,
      if ShouldUpdateListAsWritten(current.filterableAttributes, wanted.filterableAttributes) then wanted.filterableAttributes else None,
      None,
      wanted.typoTolerance, wanted.pagination, wanted.faceting)
  }

  /** As written, a setting that Meilisearch already has is sent again: the
      searchable attributes of an unchanged configuration are not removed. */
  lemma UnchangedSettingsAreResentAsWritten(config: IndexConfig)
    ensures RemoveUnchangedAsWritten(GenMSSettings(config), GenMSSettings(config)).searchableAttributes == Some(config.searchable)
    ensures RemoveUnchangedAsWritten(GenMSSettings(config), GenMSSettings(config)).distinctAttribute == Some(config.primaryKey)
  {
  }

  /** As written, synonyms that Meilisearch already has are sent again,
      while the corrected comparison drops them. */
  lemma UnchangedSynonymsAreResentAsWritten(settings: Settings)
    requires settings.synonyms.Some? && |settings.synonyms.value| > 0
    ensures RemoveUnchangedAsWritten(settings, settings).synonyms == settings.synonyms
    ensures RemoveUnchanged(settings, settings).synonyms.None?
  {
  }

  /** `removeUnchangedFromMSSettings` with the comparisons its helpers are
      named for: a setting is kept exactly when the new one is set and
      differs from the current one. */
  function RemoveUnchanged(current: Settings, wanted: Settings): (r: Settings)
    ensures r.rankingRules.Some? <==> wanted.rankingRules.Some? && Flatten(current.rankingRules) != wanted.rankingRules.value
    ensures r.distinctAttribute.Some? <==> wanted.distinctAttribute.Some? && current.distinctAttribute != wanted.distinctAttribute
    ensures r.searchableAttributes.Some? <==> wanted.searchableAttributes.Some? && Flatten(current.searchableAttributes) != wanted.searchableAttributes.value
    ensures r.displayedAttributes.Some? <==> wanted.displayedAttributes.Some? && Flatten(current.displayedAttributes) != wanted.displayedAttributes.value
    ensures r.stopWords.Some? <==> wanted.stopWords.Some? && Flatten(current.stopWords) != wanted.stopWords.value
    ensures r.filterableAttributes.Some? <==> wanted.filterableAttributes.Some? && Flatten(current.filterableAttributes) != wanted.filterableAttributes.value
    ensures r.sortableAttributes.None?
    ensures r.rankingRules.Some? ==> r.rankingRules == wanted.rankingRules
    ensures r.searchableAttributes.Some? ==> r.searchableAttributes == wanted.searchableAttributes
    ensures r.filterableAttributes.Some? ==> r.filterableAttributes == wanted.filterableAttributes
    ensures r.typoTolerance == wanted.typoTolerance && r.pagination == wanted.pagination && r.faceting == wanted.faceting
  {
    Settings(
      ChangedList(current.rankingRules, wanted.rankingRules),
      ChangedText(current.distinctAttribute, wanted.distinctAttribute),
      ChangedList(current.searchableAttributes, wanted.searchableAttributes),
      ChangedList(current.displayedAttributes, wanted.displayedAttributes),
      ChangedList(current.stopWords, wanted.stopWords),
      if ShouldUpdateMap(current.synonyms, wanted.synonyms) then wanted.synonyms else None,
      ChangedList(current.filterableAttributes, wanted.filterableAttributes),
      None,
      wanted.typoTolerance, wanted.pagination, wanted.faceting)
  }

  /** The new list when it is to be sent, otherwise nothing. */
  function ChangedList(current: Option<seq<string>>, wanted: Option<seq<string>>): (r: Option<seq<string>>)
    ensures r.Some? <==> wanted.Some? && Flatten(current) != wanted.value
    ensures r.Some? ==> r == wanted
  {
    if ShouldUpdateList(current, wanted) then wanted else None
  }

  /** The new text when it is to be sent, otherwise nothing. */
  function ChangedText(current: Option<string>, wanted: Option<string>): (r: Option<string>)
    ensures r.Some? <==> wanted.Some? && current != wanted
    ensures r.Some? ==> r == wanted
  {
    if ShouldUpdateText(current, wanted) then wanted else None
  }

  /** Applying the cleaned settings on top of the current ones gives the
      wanted settings, for every list and the distinct attribute. */
  function Apply(current: Settings, update: Settings): Settings {
    current.(
      rankingRules := if update.rankingRules.Some? then update.rankingRules else current.rankingRules,
      distinctAttribute := if update.distinctAttribute.Some? then update.distinctAttribute else current.distinctAttribute,
      searchableAttributes := if update.searchableAttributes.Some? then update.searchableAttributes else current.searchableAttributes,
      displayedAttributes := if update.displayedAttributes.Some? then update.displayedAttributes else current.displayedAttributes,
      filterableAttributes := if update.filterableAttributes.Some? then update.filterableAttributes else current.filterableAttributes)
  }

  /** Nothing is sent for a configuration Meilisearch already has, and what
      is sent brings every compared setting to the wanted value. */
  lemma RemoveUnchangedIsSound(current: Settings, config: IndexConfig)
    ensures RemoveUnchanged(GenMSSettings(config), GenMSSettings(config)).searchableAttributes.None?
    ensures RemoveUnchanged(GenMSSettings(config), GenMSSettings(config)).distinctAttribute.None?
    ensures var wanted := GenMSSettings(config);
      var after := Apply(current, RemoveUnchanged(current, wanted));
      && Flatten(after.searchableAttributes) == config.searchable
      && Flatten(after.filterableAttributes) == config.filterable
      && Flatten(after.displayedAttributes) == [config.primaryKey]
      && after.distinctAttribute == Some(config.primaryKey)
  {
  }

  // ---------------------------------------------------------------------------
  // Results

  datatype SearchResult<T> = SearchResult(
    hits: seq<T>,
    estimatedTotalHits: int,
    offset: int,
    limit: int,
    processingTime: int,
    query: string)

  predicate SameMetadata<T, U>(a: SearchResult<T>, b: SearchResult<U>) {
    && a.estimatedTotalHits == b.estimatedTotalHits && a.offset == b.offset && a.limit == b.limit
    && a.processingTime == b.processingTime && a.query == b.query
  }

  /** `ResultFromResult`: the metadata of `from` with the new hits. */
  function ResultFromResult<T, U>(from: SearchResult<T>, newHits: seq<U>): (r: SearchResult<U>)
    ensures SameMetadata(from, r)
    ensures r.hits == newHits
  {
    SearchResult(newHits, from.estimatedTotalHits, from.offset, from.limit, from.processingTime, from.query)
  }

  /** `MapResult`: every hit mapped, in order. */
  function MapResult<T, U>(from: SearchResult<T>, f: T -> U): (r: SearchResult<U>)
    ensures SameMetadata(from, r)
    ensures |r.hits| == |from.hits|
    ensures forall i :: 0 <= i < |from.hits| ==> r.hits[i] == f(from.hits[i])
  {
    ResultFromResult(from, Map(f, from.hits))
  }

  /** Mapping with the identity changes nothing, and mapping twice is mapping
      with the composition. */
  lemma MapResultComposes<T, U, V>(from: SearchResult<T>, f: T -> U, g: U -> V)
    ensures MapResult(MapResult(from, f), g) == MapResult(from, (t: T) => g(f(t)))
    ensures MapResult(from, (t: T) => t) == from
  {
    var a := MapResult(MapResult(from, f), g);
    var b := MapResult(from, (t: T) => g(f(t)));
    assert a.hits == b.hits;
    assert MapResult(from, (t: T) => t).hits == from.hits;
  }

  /** A hit as Meilisearch returns it: an object or anything else. */
  datatype Hit = HitObject(fields: map<string, JVal>) | HitOther

  /** The identifier a hit holds in the primary key, if it holds one. */
  function HitId(h: Hit, primaryKey: string): (r: Option<Id>)
    ensures r.Some? <==> h.HitObject? && primaryKey in h.fields && h.fields[primaryKey].JString?
                         && ParseUuid(h.fields[primaryKey].s).Some?
    ensures r.Some? ==> r == ParseUuid(h.fields[primaryKey].s)
  {
    if h.HitObject? && primaryKey in h.fields && h.fields[primaryKey].JString? then
      ParseUuid(h.fields[primaryKey].s)
    else None
  }

  function HitIds(hits: seq<Hit>, primaryKey: string): (r: Option<seq<Id>>)
    ensures r.Some? <==> forall i :: 0 <= i < |hits| ==> HitId(hits[i], primaryKey).Some?
    ensures r.Some? ==> |r.value| == |hits|
    ensures r.Some? ==> forall i :: 0 <= i < |hits| ==> Some(r.value[i]) == HitId(hits[i], primaryKey)
  {
    if |hits| == 0 then Some([])
    else match HitId(hits[0], primaryKey)
      case None => None
      case Some(id) =>
        match HitIds(hits[1..], primaryKey)
        case None => None
        case Some(rest) => Some([id] + rest)
  }

  /** `UUIDSearch` on the answer `answer` of Meilisearch: a failed search, an
      unknown index or a hit without a UUID string in the primary key is an
      internal error; otherwise every hit's identifier, in order, with the
      answer's metadata. */
  function UuidSearch(configs: map<string, IndexConfig>, index: string, answer: Result<SearchResult<Hit>>): (r: Result<SearchResult<Id>>)
    ensures r.Ok? <==> answer.Ok? && index in configs && HitIds(answer.value.hits, configs[index].primaryKey).Some?
    ensures r.Err? ==> r.code == Internal
    ensures r.Ok? ==>
      && SameMetadata(answer.value, r.value)
      && |r.value.hits| == |answer.value.hits|
      && forall i :: 0 <= i < |answer.value.hits| ==> Some(r.value.hits[i]) == HitId(answer.value.hits[i], configs[index].primaryKey)
  {
    if answer.Err? then Err(Internal)
    else
      var config :- IndexConfigOf(configs, index);
      match HitIds(answer.value.hits, config.primaryKey)
      case None => Err(Internal)
      case Some(ids) => Ok(ResultFromResult(answer.value, ids))
  }
}
