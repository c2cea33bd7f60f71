/** The search-index request model of `AlgoliaAPI` (HNClient/AlgoliaFetch.swift and its
    near-duplicate OctalClone/AlgoliaAPI.swift): endpoints, `SearchParam` with its tags,
    tag groups and numeric filters, the query-string serialiser, `buildUrl`, and the
    shared `FetchStatus`. The two copies differ only in the URL scheme and in the
    convenience initialiser, and both are modelled here. */
module AlgoliaEndpoint {
  import opened Wrappers
  import opened Strings

  // ---------------------------------------------------------------- search type

  /** `SearchParam.SearchType`, raw values "Recent" and "Best". */
  datatype SearchType = Recent | Best

  function SearchTypeRawValue(t: SearchType): (r: string)
    ensures r == "Recent" || r == "Best"
    ensures (r == "Best") <==> t == Best
  {
    match t
    case Recent => "Recent"
    case Best => "Best"
  }

  // ------------------------------------------------------------ numeric filters

  /** `NumericFilter.Operator`; the flag says whether equality is included. */
  datatype Operator = Equal | LessThan(orEqual: bool) | GreaterThan(orEqual: bool)

  /** `Operator.label`. */
  function OperatorLabel(op: Operator): (r: string)
    ensures 1 <= |r| <= 2
    ensures r[0] == (match op case Equal => '=' case LessThan(_) => '<' case GreaterThan(_) => '>')
    ensures |r| == 2 <==> !op.Equal? && op.orEqual
    ensures |r| == 2 ==> r[1] == '='
  {
    match op
    case Equal => "="
    case GreaterThan(orEqual) => ">" + (if orEqual then "=" else "")
    case LessThan(orEqual) => "<" + (if orEqual then "=" else "")
  }

  /** `NumericFilter`: a field of the search index compared with an integer. */
  datatype NumericFilter =
    | CreatedAt(op: Operator, value: int)
    | Points(op: Operator, value: int)
    | NumComments(op: Operator, value: int)

  /** The index field each filter case names. */
  function FilterField(f: NumericFilter): (r: string)
    ensures |r| >= 1 && ',' !in r
    ensures f.CreatedAt? <==> r[0] == 'c'
    ensures f.Points? <==> r[0] == 'p'
    ensures f.NumComments? <==> r[0] == 'n'
  {
    match f
    case CreatedAt(_, _) => "created_at_i"
    case Points(_, _) => "points"
    case NumComments(_, _) => "num_comments"
  }

  /** `NumericFilter.description`: field name, operator label, decimal value. */
  function NumericFilterDescription(f: NumericFilter): (r: string)
    ensures r == FilterField(f) + OperatorLabel(f.op) + IntToString(f.value)
  {
    match f
    case CreatedAt(op, value) => "created_at_i" + OperatorLabel(op) + IntToString(value)
    case Points(op, value) => "points" + OperatorLabel(op) + IntToString(value)
    case NumComments(op, value) => "num_comments" + OperatorLabel(op) + IntToString(value)
  }

  /** Reads an operator label off the front of `s`, with its length; "<=" and ">="
      are tried before "<" and ">". */
  function ParseOperator(s: string): Option<(Operator, nat)> {
    if HasPrefix(s, ">=") then Some((GreaterThan(true), 2))
    else if HasPrefix(s, ">") then Some((GreaterThan(false), 1))
    else if HasPrefix(s, "<=") then Some((LessThan(true), 2))
    else if HasPrefix(s, "<") then Some((LessThan(false), 1))
    else if HasPrefix(s, "=") then Some((Equal, 1))
    else None
  }

  /** An operator label followed by a decimal integer. */
  function ParseComparison(s: string): Option<(Operator, int)> {
    match ParseOperator(s)
    case None => None
    case Some((op, n)) =>
      if n > |s| then None
      else
        match ParseInt(s[n..])
        case None => None
        case Some(v) => Some((op, v))
  }

  /** Reads a numeric filter back from its description. */
  function ParseNumericFilter(s: string): Option<NumericFilter> {
    if HasPrefix(s, "created_at_i") then
      match ParseComparison(s[12..]) case Some((op, v)) => Some(CreatedAt(op, v)) case None => None
    else if HasPrefix(s, "points") then
      match ParseComparison(s[6..]) case Some((op, v)) => Some(Points(op, v)) case None => None
    else if HasPrefix(s, "num_comments") then
      match ParseComparison(s[12..]) case Some((op, v)) => Some(NumComments(op, v)) case None => None
    else None
  }

  lemma ParseOperatorLabel(op: Operator, rest: string)
    requires |rest| >= 1 && rest[0] != '='
    ensures ParseOperator(OperatorLabel(op) + rest) == Some((op, |OperatorLabel(op)|))
  {
    var s := OperatorLabel(op) + rest;
    assert s[0] == OperatorLabel(op)[0];
    if |OperatorLabel(op)| == 2 {
      assert s[..2] == OperatorLabel(op);
    } else {
      assert s[1] == rest[0];
      assert s[..1] == OperatorLabel(op);
    }
  }

  lemma ParseComparisonOf(op: Operator, v: int)
    requires InInt64(v)
    ensures ParseComparison(OperatorLabel(op) + IntToString(v)) == Some((op, v))
  {
    var opLabel, digits := OperatorLabel(op), IntToString(v);
    ParseOperatorLabel(op, digits);
    assert (opLabel + digits)[|opLabel|..] == digits;
    ParseIntOfIntToString(v);
  }

  /** Every description of a filter whose value fits in 64 bits reads back as that filter. */
  lemma ParseNumericFilterDescription(f: NumericFilter)
    requires InInt64(f.value)
    ensures ParseNumericFilter(NumericFilterDescription(f)) == Some(f)
  {
    var rest := OperatorLabel(f.op) + IntToString(f.value);
    ParseComparisonOf(f.op, f.value);
    FieldThen(FilterField(f), rest);
    ConcatAssociates(FilterField(f), OperatorLabel(f.op), IntToString(f.value));
    match f
    case CreatedAt(_, _) => ParseCreatedAtFilter(rest, f);
    case Points(_, _) => ParsePointsFilter(rest, f);
    case NumComments(_, _) => ParseNumCommentsFilter(rest, f);
  }

  lemma ParseCreatedAtFilter(rest: string, f: NumericFilter)
    requires f.CreatedAt? && ParseComparison(rest) == Some((f.op, f.value))
    requires HasPrefix("created_at_i" + rest, "created_at_i") && ("created_at_i" + rest)[12..] == rest
    ensures ParseNumericFilter("created_at_i" + rest) == Some(f)
  {
  }

  lemma ParsePointsFilter(rest: string, f: NumericFilter)
    requires f.Points? && ParseComparison(rest) == Some((f.op, f.value))
    requires HasPrefix("points" + rest, "points") && ("points" + rest)[6..] == rest
    ensures ParseNumericFilter("points" + rest) == Some(f)
  {
    FirstCharDecidesPrefix("points" + rest, "created_at_i");
  }

  lemma ParseNumCommentsFilter(rest: string, f: NumericFilter)
    requires f.NumComments? && ParseComparison(rest) == Some((f.op, f.value))
    requires HasPrefix("num_comments" + rest, "num_comments") && ("num_comments" + rest)[12..] == rest
    ensures ParseNumericFilter("num_comments" + rest) == Some(f)
  {
    FirstCharDecidesPrefix("num_comments" + rest, "created_at_i");
    FirstCharDecidesPrefix("num_comments" + rest, "points");
  }

  lemma ConcatAssociates(a: string, b: string, c: string)
    ensures a + b + c == a + (b + c)
  {
  }

  /** A field name followed by the rest of a description starts with the field, and
      what follows it is the rest. */
  lemma FieldThen(field: string, rest: string)
    ensures HasPrefix(field + rest, field) && (field + rest)[|field|..] == rest
    ensures |field + rest| >= 1 ==> (field + rest)[0] == (if |field| >= 1 then field[0] else rest[0])
  {
    assert (field + rest)[..|field|] == field;
  }

  lemma FirstCharDecidesPrefix(s: string, prefix: string)
    requires |s| >= 1 && |prefix| >= 1 && s[0] != prefix[0]
    ensures !HasPrefix(s, prefix)
  {
    if |prefix| <= |s| {
      assert s[..|prefix|][0] == s[0];
    }
  }

  /** No description of a numeric filter contains the separator ",". */
  lemma NumericFilterDescriptionHasNoComma(f: NumericFilter)
    ensures ',' !in NumericFilterDescription(f)
  {
    var field, opLabel, digits := FilterField(f), OperatorLabel(f.op), IntToString(f.value);
    var s := NumericFilterDescription(f);
    forall k | 0 <= k < |s| ensures s[k] != ',' {
      if k < |field| {
        assert s[k] == field[k];
      } else if k < |field| + |opLabel| {
        assert s[k] == opLabel[k - |field|];
      } else {
        assert s[k] == digits[k - |field| - |opLabel|];
      }
    }
  }

  // ----------------------------------------------------------------------- tags

  /** `SearchParam.Tag`; `author_` and `story_` carry a user name and a story id. */
  datatype Tag =
    | Story | Comment | Poll | Pollopt | ShowHn | AskHn | FrontPage
    | Author(username: string)
    | StoryWithId(id: string)

  /** `Tag.id`. */
  function TagId(t: Tag): (r: string)
    ensures t.Author? ==> |r| >= 7 && r[..7] == "author_" && r[7..] == t.username
    ensures t.StoryWithId? ==> |r| >= 6 && r[..6] == "story_" && r[6..] == t.id
  {
    match t
    case Story => "story"
    case Comment => "comment"
    case Poll => "poll"
    case Pollopt => "pollopt"
    case ShowHn => "show_hn"
    case AskHn => "ask_hn"
    case FrontPage => "front_page"
    case Author(username) => "author_" + username
    case StoryWithId(id) => "story_" + id
  }

  /** `Tag.description` (the CustomStringConvertible conformance), written out case by
      case in the source, is the same string as `Tag.id`. */
  function TagDescription(t: Tag): (r: string)
    ensures r == TagId(t)
  {
    match t
    case Story => "story"
    case Comment => "comment"
    case Poll => "poll"
    case Pollopt => "pollopt"
    case ShowHn => "show_hn"
    case AskHn => "ask_hn"
    case FrontPage => "front_page"
    case Author(username) => "author_" + username
    case StoryWithId(id) => "story_" + id
  }

  /** Reads a tag back from its description. */
  function ParseTag(s: string): Option<Tag> {
    if s == "story" then Some(Story)
    else if s == "comment" then Some(Comment)
    else if s == "poll" then Some(Poll)
    else if s == "pollopt" then Some(Pollopt)
    else if s == "show_hn" then Some(ShowHn)
    else if s == "ask_hn" then Some(AskHn)
    else if s == "front_page" then Some(FrontPage)
    else if HasPrefix(s, "author_") then Some(Author(s[7..]))
    else if HasPrefix(s, "story_") then Some(StoryWithId(s[6..]))
    else None
  }

  /** Every tag's description names exactly that tag. */
  lemma ParseTagDescription(t: Tag)
    ensures ParseTag(TagDescription(t)) == Some(t)
  {
    var s := TagDescription(t);
    match t
    case Author(u) =>
      assert s[..7] == "author_" && s[7..] == u;
      assert s[0] == 'a' && |s| >= 7;
    case StoryWithId(id) =>
      assert s[..6] == "story_" && s[6..] == id;
      assert s[0] == 's' && s[5] == '_';
      assert !HasPrefix(s, "author_");
    case _ =>
  }

  /** The text a user name or story id adds to a tag has no ",". */
  predicate TagTextCommaFree(t: Tag) {
    match t
    case Author(u) => ',' !in u
    case StoryWithId(id) => ',' !in id
    case _ => true
  }

  lemma TagDescriptionHasNoComma(t: Tag)
    requires TagTextCommaFree(t)
    ensures ',' !in TagDescription(t)
  {
    match t
    case Author(u) =>
      assert forall k :: 7 <= k < |TagDescription(t)| ==> TagDescription(t)[k] == u[k - 7];
    case StoryWithId(id) =>
      assert forall k :: 6 <= k < |TagDescription(t)| ==> TagDescription(t)[k] == id[k - 6];
    case _ =>
  }

  predicate IsContentType(t: Tag) {
    t == Story || t == Comment
  }

  predicate IsPageType(t: Tag) {
    t == ShowHn || t == AskHn
  }

  predicate IsIdType(t: Tag) {
    t.Author? || t.StoryWithId?
  }

  /** `Tag.pageTypeCases` and `Tag.contentTypeCases`. */
  const PAGE_TYPE_CASES: seq<Tag> := [ShowHn, AskHn]
  const CONTENT_TYPE_CASES: seq<Tag> := [Story, Comment]

  /** The static `Tag[item]` subscript of the HNClient copy: the position among the page
      types, or 0 for any other tag. */
  function PageTypeIndex(t: Tag): (r: nat)
    ensures r < |PAGE_TYPE_CASES|
    ensures IsPageType(t) ==> PAGE_TYPE_CASES[r] == t
    ensures !IsPageType(t) ==> r == 0
  {
    if t == ShowHn then 0 else if t == AskHn then 1 else 0
  }

  /** The three tag classifications are pairwise disjoint, and the first two are exactly
      membership in the listed cases. */
  lemma TagKindsDisjoint(t: Tag)
    ensures !(IsContentType(t) && IsPageType(t))
    ensures !(IsContentType(t) && IsIdType(t))
    ensures !(IsPageType(t) && IsIdType(t))
    ensures IsContentType(t) <==> t in CONTENT_TYPE_CASES
    ensures IsPageType(t) <==> t in PAGE_TYPE_CASES
  {
  }

  /** `TagGroup`: tags that must all match, or of which one must match. */
  datatype TagGroup = And(tags: seq<Tag>) | Or(tags: seq<Tag>)

  // ------------------------------------------------------------- search params

  /** `Endpoint.SearchParam`. */
  datatype SearchParam = SearchParam(
    searchType: SearchType,
    query: Option<string>,
    tagGroups: Option<seq<TagGroup>>,
    numericFilter: Option<seq<NumericFilter>>)

  /** `init(searchType:query:tag:numericFilter:)` of the HNClient copy: one AND group of one tag. */
  function SearchParamWithTag(searchType: SearchType, query: Option<string>, tag: Tag,
                              numericFilter: Option<seq<NumericFilter>>): (r: SearchParam)
    ensures r.tagGroups == Some([And([tag])])
    ensures r.searchType == searchType && r.query == query && r.numericFilter == numericFilter
  {
    SearchParam(searchType, query, Some([And([tag])]), numericFilter)
  }

  /** `init(searchType:query:tags:numericFilter:)` of the OctalClone copy: exactly one AND group. */
  function SearchParamWithTags(searchType: SearchType, query: Option<string>, tags: seq<Tag>,
                               numericFilter: Option<seq<NumericFilter>>): (r: SearchParam)
    ensures r.tagGroups == Some([And(tags)])
    ensures r.searchType == searchType && r.query == query && r.numericFilter == numericFilter
  {
    SearchParam(searchType, query, Some([And(tags)]), numericFilter)
  }

  /** `SearchParam.path`. */
  function SearchPath(p: SearchParam): (r: string)
    ensures r == "search" <==> p.searchType == Best
    ensures r == "search" || r == "search_by_date"
  {
    if p.searchType == Best then "search" else "search_by_date"
  }

  function TagDescriptions(tags: seq<Tag>): (r: seq<string>)
    ensures |r| == |tags|
    ensures forall k :: 0 <= k < |tags| ==> r[k] == TagDescription(tags[k])
  {
    if |tags| == 0 then [] else [TagDescription(tags[0])] + TagDescriptions(tags[1..])
  }

  /** `tagsToParamString`: nil for no tags, otherwise the descriptions joined by ",". */
  function TagsToParamString(tags: seq<Tag>): (r: Option<string>)
    ensures r.None? <==> tags == []
    ensures r.Some? ==> r.value == Join(TagDescriptions(tags), ",")
  {
    if |tags| == 0 then None else Some(Join(TagDescriptions(tags), ","))
  }

  function ParseTags(pieces: seq<string>): (r: Option<seq<Tag>>)
    ensures r.Some? ==> |r.value| == |pieces|
  {
    if |pieces| == 0 then Some([])
    else
      match (ParseTag(pieces[0]), ParseTags(pieces[1..]))
      case (Some(t), Some(ts)) => Some([t] + ts)
      case _ => None
  }

  lemma {:induction false} ParseTagsOfDescriptions(tags: seq<Tag>)
    ensures ParseTags(TagDescriptions(tags)) == Some(tags)
  {
    if |tags| > 0 {
      assert TagDescriptions(tags)[1..] == TagDescriptions(tags[1..]);
      ParseTagDescription(tags[0]);
      ParseTagsOfDescriptions(tags[1..]);
      assert tags == [tags[0]] + tags[1..];
    }
  }

  /** The tag string of a non-empty list lists its tags in order: splitting it at ","
      and reading each piece gives the tags back, as long as no user name or story id
      itself contains ",". */
  lemma TagsToParamStringRoundTrip(tags: seq<Tag>)
    requires tags != []
    requires forall k :: 0 <= k < |tags| ==> TagTextCommaFree(tags[k])
    ensures ParseTags(Split(TagsToParamString(tags).value, ',')) == Some(tags)
  {
    var ds := TagDescriptions(tags);
    forall k | 0 <= k < |ds| ensures ',' !in ds[k] {
      TagDescriptionHasNoComma(tags[k]);
    }
    SplitJoin(ds, ',');
    ParseTagsOfDescriptions(tags);
  }

  /** What one tag group contributes to the `tags` parameter: nothing when it is empty. */
  function RenderTagGroup(g: TagGroup): (r: Option<string>)
    ensures r.None? <==> g.tags == []
    ensures g.And? && r.Some? ==> r.value == Join(TagDescriptions(g.tags), ",")
    ensures g.Or? && r.Some? ==> r.value == "(" + Join(TagDescriptions(g.tags), ",") + ")"
  {
    match g
    case And(tags) => TagsToParamString(tags)
    case Or(tags) =>
      match TagsToParamString(tags)
      case Some(orString) => Some("(" + orString + ")")
      case None => None
  }

  /** The `compactMap` over the groups: the rendering of every non-empty group, in order. */
  function RenderTagGroups(groups: seq<TagGroup>): (r: seq<string>)
    ensures |r| <= |groups|
    ensures r == [] <==> forall k :: 0 <= k < |groups| ==> groups[k].tags == []
    decreases |groups|
  {
    if |groups| == 0 then []
    else
      match RenderTagGroup(groups[0])
      case Some(s) => [s] + RenderTagGroups(groups[1..])
      case None =>
        assert forall k :: 1 <= k < |groups| ==> groups[k] == groups[1..][k - 1];
        RenderTagGroups(groups[1..])
  }

  /** One group renders to its own string, or to nothing when it has no tags. */
  lemma RenderTagGroupsSingle(g: TagGroup)
    ensures RenderTagGroups([g]) == if g.tags == [] then [] else [RenderTagGroup(g).value]
  {
    assert [g][1..] == [];
  }

  /** The rendering keeps the order of the groups: it distributes over concatenation. */
  lemma {:induction false} RenderTagGroupsAppend(a: seq<TagGroup>, b: seq<TagGroup>)
    ensures RenderTagGroups(a + b) == RenderTagGroups(a) + RenderTagGroups(b)
    decreases |a|
  {
    if |a| == 0 {
      assert a + b == b;
    } else {
      assert (a + b)[0] == a[0] && (a + b)[1..] == a[1..] + b;
      RenderTagGroupsAppend(a[1..], b);
    }
  }

  /** `buildTagQueryParam`: "" when there are no groups; otherwise the renderings of the
      non-empty groups joined by ",", which is "" when every group is empty. */
  function BuildTagQueryParam(groups: Option<seq<TagGroup>>): (r: string)
    ensures groups.None? ==> r == ""
    ensures groups.Some? ==> r == Join(RenderTagGroups(groups.value), ",")
    ensures groups.Some? && (forall k :: 0 <= k < |groups.value| ==> groups.value[k].tags == []) ==> r == ""
  {
    match groups
    case None => ""
    case Some(gs) => Join(RenderTagGroups(gs), ",")
  }

  /** Groups are rendered in order and joined by ",": the parameter of two runs of groups
      is the two parameters with "," between them, and a run that renders nothing adds
      nothing. */
  lemma BuildTagQueryParamAppend(a: seq<TagGroup>, b: seq<TagGroup>)
    ensures RenderTagGroups(a) == [] ==> BuildTagQueryParam(Some(a + b)) == BuildTagQueryParam(Some(b))
    ensures RenderTagGroups(b) == [] ==> BuildTagQueryParam(Some(a + b)) == BuildTagQueryParam(Some(a))
    ensures RenderTagGroups(a) != [] && RenderTagGroups(b) != [] ==>
              BuildTagQueryParam(Some(a + b)) == BuildTagQueryParam(Some(a)) + "," + BuildTagQueryParam(Some(b))
  {
    RenderTagGroupsAppend(a, b);
    if RenderTagGroups(a) == [] {
      assert RenderTagGroups(a + b) == RenderTagGroups(b);
    }
    if RenderTagGroups(b) == [] {
      assert RenderTagGroups(a + b) == RenderTagGroups(a);
    }
    if RenderTagGroups(a) != [] && RenderTagGroups(b) != [] {
      JoinAppend(RenderTagGroups(a), RenderTagGroups(b), ",");
    }
  }

  /** An empty group anywhere in the list leaves the parameter as it is without it. */
  lemma BuildTagQueryParamDropsEmpty(a: seq<TagGroup>, g: TagGroup, b: seq<TagGroup>)
    requires g.tags == []
    ensures BuildTagQueryParam(Some(a + [g] + b)) == BuildTagQueryParam(Some(a + b))
  {
    RenderTagGroupsAppend(a + [g], b);
    RenderTagGroupsAppend(a, [g]);
    RenderTagGroupsAppend(a, b);
    RenderTagGroupsSingle(g);
    AppendNothing(RenderTagGroups(a), RenderTagGroups([g]));
  }

  lemma AppendNothing<T>(x: seq<T>, e: seq<T>)
    requires e == []
    ensures x + e == x
  {
  }

  /** A single group's parameter is its rendering, or "" when it has no tags. */
  lemma BuildTagQueryParamSingle(g: TagGroup)
    ensures BuildTagQueryParam(Some([g])) == if g.tags == [] then "" else RenderTagGroup(g).value
  {
    RenderTagGroupsSingle(g);
  }

  function NumericFilterDescriptions(filters: seq<NumericFilter>): (r: seq<string>)
    ensures |r| == |filters|
    ensures forall k :: 0 <= k < |filters| ==> r[k] == NumericFilterDescription(filters[k])
  {
    if |filters| == 0 then [] else [NumericFilterDescription(filters[0])] + NumericFilterDescriptions(filters[1..])
  }

  /** `buildNumericFilterParam`: the descriptions joined by ",", or "" for nil. */
  function BuildNumericFilterParam(filters: Option<seq<NumericFilter>>): (r: string)
    ensures filters.None? ==> r == ""
    ensures filters.Some? ==> r == Join(NumericFilterDescriptions(filters.value), ",")
  {
    match filters
    case None => ""
    case Some(fs) => Join(NumericFilterDescriptions(fs), ",")
  }

  /** A joined string of at least one non-empty piece is not empty. */
  lemma JoinNonEmpty(pieces: seq<string>, sep: string)
    requires |pieces| >= 1 && pieces[0] != ""
    ensures Join(pieces, sep) != ""
  {
    if |pieces| > 1 {
      assert Join(pieces, sep)[0] == pieces[0][0];
    }
  }

  function ParseNumericFilters(pieces: seq<string>): (r: Option<seq<NumericFilter>>)
    ensures r.Some? ==> |r.value| == |pieces|
  {
    if |pieces| == 0 then Some([])
    else
      match (ParseNumericFilter(pieces[0]), ParseNumericFilters(pieces[1..]))
      case (Some(f), Some(fs)) => Some([f] + fs)
      case _ => None
  }

  /** Reads the `numericFilters` parameter back: "" is no filter at all. */
  function ParseNumericFilterParam(s: string): Option<seq<NumericFilter>> {
    if s == "" then Some([]) else ParseNumericFilters(Split(s, ','))
  }

  lemma {:induction false} ParseNumericFiltersOfDescriptions(fs: seq<NumericFilter>)
    requires forall k :: 0 <= k < |fs| ==> InInt64(fs[k].value)
    ensures ParseNumericFilters(NumericFilterDescriptions(fs)) == Some(fs)
  {
    if |fs| > 0 {
      var ds := NumericFilterDescriptions(fs);
      assert ds[1..] == NumericFilterDescriptions(fs[1..]);
      ParseNumericFilterDescription(fs[0]);
      ParseNumericFiltersOfDescriptions(fs[1..]);
      assert fs == [fs[0]] + fs[1..];
    }
  }

  /** The `numericFilters` parameter lists every filter of the search, in order: reading it
      back gives the filters (an empty list for nil or no filters). */
  lemma BuildNumericFilterParamRoundTrip(fs: seq<NumericFilter>)
    requires forall k :: 0 <= k < |fs| ==> InInt64(fs[k].value)
    ensures ParseNumericFilterParam(BuildNumericFilterParam(Some(fs))) == Some(fs)
    ensures ParseNumericFilterParam(BuildNumericFilterParam(None)) == Some([])
  {
    if |fs| > 0 {
      var ds := NumericFilterDescriptions(fs);
      forall k | 0 <= k < |ds| ensures ',' !in ds[k] {
        NumericFilterDescriptionHasNoComma(fs[k]);
      }
      assert FilterField(fs[0]) != "" && ds[0][0] == FilterField(fs[0])[0];
      JoinNonEmpty(ds, ",");
      SplitJoin(ds, ',');
      ParseNumericFiltersOfDescriptions(fs);
    }
  }

  // ---------------------------------------------------------------- query items

  /** `URLQueryItem`. */
  datatype QueryItem = QueryItem(name: string, value: Option<string>)

  /** The filter `!($0.value?.isEmpty ?? true)`: the value is present and not empty. */
  predicate HasValue(item: QueryItem) {
    item.value.Some? && item.value.value != ""
  }

  /** The names strictly increase in the fixed parameter order. */
  predicate RankOrdered(items: seq<QueryItem>) {
    forall i, j :: 0 <= i < j < |items| ==> ParamRank(items[i].name) < ParamRank(items[j].name)
  }

  /** The `filter` of `queryItems`: the items that have a value, in order. */
  function KeepWithValue(items: seq<QueryItem>): (r: seq<QueryItem>)
    ensures forall it :: it in r <==> it in items && HasValue(it)
    ensures |r| <= |items|
  {
    if |items| == 0 then [] else KeepOne(items[0]) + KeepWithValue(items[1..])
  }

  /** The one-element list of `item` when it has a value, else empty. */
  function KeepOne(item: QueryItem): seq<QueryItem> {
    if HasValue(item) then [item] else []
  }

  /** Filtering keeps the relative order of the items. */
  lemma {:induction false} KeepWithValueRankOrdered(items: seq<QueryItem>)
    requires RankOrdered(items)
    ensures RankOrdered(KeepWithValue(items))
  {
    if |items| > 0 {
      var x, tail := items[0], items[1..];
      RankOrderedTail(items);
      KeepWithValueRankOrdered(tail);
      var rest := KeepWithValue(tail);
      assert forall it :: it in rest ==> ParamRank(x.name) < ParamRank(it.name) by {
        forall it | it in rest ensures ParamRank(x.name) < ParamRank(it.name) {
          var k :| 0 <= k < |tail| && tail[k] == it;
          assert items[k + 1] == it;
        }
      }
      if HasValue(x) {
        RankOrderedCons(x, rest);
      }
    }
  }

  lemma RankOrderedTail(items: seq<QueryItem>)
    requires |items| > 0 && RankOrdered(items)
    ensures RankOrdered(items[1..])
  {
    var tail := items[1..];
    forall i, j | 0 <= i < j < |tail| ensures ParamRank(tail[i].name) < ParamRank(tail[j].name) {
      assert tail[i] == items[i + 1] && tail[j] == items[j + 1];
    }
  }

  lemma RankOrderedCons(x: QueryItem, rest: seq<QueryItem>)
    requires RankOrdered(rest)
    requires forall it :: it in rest ==> ParamRank(x.name) < ParamRank(it.name)
    ensures RankOrdered([x] + rest)
  {
    var r := [x] + rest;
    forall i, j | 0 <= i < j < |r| ensures ParamRank(r[i].name) < ParamRank(r[j].name) {
      assert r[j] == rest[j - 1] && r[j] in rest;
      if i > 0 {
        assert r[i] == rest[i - 1];
      }
    }
  }

  /** The filter over the four candidates, item by item. */
  lemma KeepCandidates(a: QueryItem, b: QueryItem, c: QueryItem, h: QueryItem)
    requires HasValue(h)
    ensures KeepWithValue([a, b, c, h]) == KeepOne(a) + (KeepOne(b) + (KeepOne(c) + [h]))
  {
    assert KeepWithValue([h]) == [h] by {
      assert [h][1..] == [];
    }
    assert KeepWithValue([c, h]) == KeepOne(c) + [h] by {
      assert [c, h][1..] == [h];
    }
    assert KeepWithValue([b, c, h]) == KeepOne(b) + (KeepOne(c) + [h]) by {
      assert [b, c, h][1..] == [c, h];
    }
    assert [a, b, c, h][1..] == [b, c, h];
  }

  const HITS_PER_PAGE: string := "500"

  /** Position of each parameter name in the fixed order of `queryItems`. */
  function ParamRank(name: string): int {
    if name == "query" then 0
    else if name == "tags" then 1
    else if name == "numericFilters" then 2
    else if name == "hitsPerPage" then 3
    else 4
  }

  /** The value of the first item called `name`, if any. */
  function ValueOf(items: seq<QueryItem>, name: string): Option<string> {
    if |items| == 0 then None
    else if items[0].name == name then items[0].value
    else ValueOf(items[1..], name)
  }

  function NonEmpty(s: Option<string>): Option<string> {
    if s.Some? && s.value != "" then s else None
  }

  /** The four candidate items of `queryItems`, before the empty ones are dropped. */
  function CandidateItems(p: SearchParam): seq<QueryItem> {
    [QueryItem("query", p.query),
     QueryItem("tags", Some(BuildTagQueryParam(p.tagGroups))),
     QueryItem("numericFilters", Some(BuildNumericFilterParam(p.numericFilter))),
     QueryItem("hitsPerPage", Some(HITS_PER_PAGE))]
  }

  /** `SearchParam.queryItems`: the items with a non-empty value, in the fixed order,
      always ending with `hitsPerPage`. */
  function QueryItems(p: SearchParam): (r: seq<QueryItem>)
    ensures forall k :: 0 <= k < |r| ==> HasValue(r[k])
    ensures RankOrdered(r)
    ensures |r| >= 1 && r[|r| - 1] == QueryItem("hitsPerPage", Some(HITS_PER_PAGE))
  {
    var items := CandidateItems(p);
    CandidatesRankOrdered(p);
    KeptCandidatesShape(items[0], items[1], items[2], items[3]);
    KeepWithValue(items)
  }

  /** The candidates are listed in the fixed parameter order. */
  lemma CandidatesRankOrdered(p: SearchParam)
    ensures var items := CandidateItems(p);
            items == [items[0], items[1], items[2], items[3]] && RankOrdered(items)
            && items[3] == QueryItem("hitsPerPage", Some(HITS_PER_PAGE)) && HasValue(items[3])
  {
    var items := CandidateItems(p);
    assert ParamRank(items[0].name) == 0 && ParamRank(items[1].name) == 1;
    assert ParamRank(items[2].name) == 2 && ParamRank(items[3].name) == 3;
  }

  /** Filtering four ordered candidates whose last has a value: every kept item has a
      value, the order is kept, and the last candidate comes last. */
  lemma KeptCandidatesShape(a: QueryItem, b: QueryItem, c: QueryItem, h: QueryItem)
    requires HasValue(h) && RankOrdered([a, b, c, h])
    ensures var r := KeepWithValue([a, b, c, h]);
            (forall k :: 0 <= k < |r| ==> HasValue(r[k])) && RankOrdered(r) && |r| >= 1 && r[|r| - 1] == h
  {
    var r := KeepWithValue([a, b, c, h]);
    KeepWithValueRankOrdered([a, b, c, h]);
    KeepCandidates(a, b, c, h);
    assert forall k :: 0 <= k < |r| ==> r[k] in r;
  }

  lemma ValueOfKeepOne(x: QueryItem, rest: seq<QueryItem>, name: string)
    ensures ValueOf(KeepOne(x) + rest, name)
         == if x.name == name && HasValue(x) then x.value else ValueOf(rest, name)
  {
    if HasValue(x) {
      assert (KeepOne(x) + rest)[1..] == rest;
    } else {
      assert KeepOne(x) + rest == rest;
    }
  }

  /** Each parameter of the query string carries the value the search param gives it,
      and is absent exactly when that value is missing or empty. */
  lemma QueryItemsValues(p: SearchParam)
    ensures ValueOf(QueryItems(p), "query") == NonEmpty(p.query)
    ensures ValueOf(QueryItems(p), "tags") == NonEmpty(Some(BuildTagQueryParam(p.tagGroups)))
    ensures ValueOf(QueryItems(p), "numericFilters") == NonEmpty(Some(BuildNumericFilterParam(p.numericFilter)))
    ensures ValueOf(QueryItems(p), "hitsPerPage") == Some(HITS_PER_PAGE)
  {
    var items := CandidateItems(p);
    KeepCandidates(items[0], items[1], items[2], items[3]);
    ValueOfCandidates(items[0], items[1], items[2], items[3], "query");
    ValueOfCandidates(items[0], items[1], items[2], items[3], "tags");
    ValueOfCandidates(items[0], items[1], items[2], items[3], "numericFilters");
    ValueOfCandidates(items[0], items[1], items[2], items[3], "hitsPerPage");
  }

  lemma ValueOfCandidates(a: QueryItem, b: QueryItem, c: QueryItem, h: QueryItem, name: string)
    requires h.name == name ==> HasValue(h)
    ensures ValueOf(KeepOne(a) + (KeepOne(b) + (KeepOne(c) + [h])), name)
         == if a.name == name && HasValue(a) then a.value
            else if b.name == name && HasValue(b) then b.value
            else if c.name == name && HasValue(c) then c.value
            else ValueOf([h], name)
  {
    ValueOfKeepOne(a, KeepOne(b) + (KeepOne(c) + [h]), name);
    ValueOfKeepOne(b, KeepOne(c) + [h], name);
    ValueOfKeepOne(c, [h], name);
  }

  // ------------------------------------------------------------------ endpoints

  /** `AlgoliaAPI.Endpoint`. */
  datatype Endpoint = Items(id: string) | Users(id: string) | Search(param: SearchParam)

  /** The parts of `URLComponents` that `buildUrl` sets. */
  datatype UrlComponents = UrlComponents(scheme: string, host: string, path: string, queryItems: Option<seq<QueryItem>>)

  const HOST: string := "hn.algolia.com"
  const BASE_PATH: string := "/api/v1/"
  /** `APIConstants.scheme` of the HNClient copy and of the OctalClone copy. */
  const HNCLIENT_SCHEME: string := "http"
  const OCTAL_CLONE_SCHEME: string := "https"

  /** `buildUrl`, for the scheme of either copy. The URL built from these components always
      exists, because the path starts with "/", so the force unwrap never traps. */
  function BuildUrl(scheme: string, endpoint: Endpoint): (r: UrlComponents)
    ensures r.scheme == scheme && r.host == HOST && HasPrefix(r.path, BASE_PATH)
    ensures endpoint.Items? ==> r.path == BASE_PATH + "items/" + endpoint.id && r.queryItems.None?
    ensures endpoint.Users? ==> r.path == BASE_PATH + "users/" + endpoint.id && r.queryItems.None?
    ensures endpoint.Search? ==> r.path == BASE_PATH + SearchPath(endpoint.param)
                                 && r.queryItems == Some(QueryItems(endpoint.param))
  {
    var base := UrlComponents(scheme, HOST, BASE_PATH, None);
    match endpoint
    case Items(id) => base.(path := base.path + "items/" + id)
    case Users(id) => base.(path := base.path + "users/" + id)
    case Search(param) => base.(path := base.path + SearchPath(param), queryItems := Some(QueryItems(param)))
  }

  /** What a request path asks of the search index. */
  datatype RequestKind = ItemRequest(itemId: string) | UserRequest(userId: string) | SearchRequest(searchType: SearchType)

  function EndpointKind(e: Endpoint): RequestKind {
    match e
    case Items(id) => ItemRequest(id)
    case Users(id) => UserRequest(id)
    case Search(p) => SearchRequest(p.searchType)
  }

  /** Reads a path built by `BuildUrl` back. */
  function ParseRequestPath(path: string): Option<RequestKind> {
    if !HasPrefix(path, BASE_PATH) then None
    else
      var rest := path[|BASE_PATH|..];
      if rest == "search" then Some(SearchRequest(Best))
      else if rest == "search_by_date" then Some(SearchRequest(Recent))
      else if HasPrefix(rest, "items/") then Some(ItemRequest(rest[6..]))
      else if HasPrefix(rest, "users/") then Some(UserRequest(rest[6..]))
      else None
  }

  /** The path of every built URL names its endpoint: the item or user id, or the search type. */
  lemma BuildUrlPathNamesEndpoint(scheme: string, e: Endpoint)
    ensures ParseRequestPath(BuildUrl(scheme, e).path) == Some(EndpointKind(e))
  {
    var path := BuildUrl(scheme, e).path;
    assert path[..|BASE_PATH|] == BASE_PATH;
    var rest := path[|BASE_PATH|..];
    match e
    case Items(id) =>
      assert rest == "items/" + id;
      assert rest[0] == 'i';
      assert rest[..6] == "items/" && rest[6..] == id;
    case Users(id) =>
      assert rest == "users/" + id;
      assert rest[0] == 'u';
      assert rest[..6] == "users/" && rest[6..] == id;
    case Search(p) =>
      assert rest == SearchPath(p);
  }

  // ---------------------------------------------------------------- fetch state

  /** `AlgoliaAPI.FetchStatus`, shared by the view models. */
  datatype FetchStatus = Idle | Fetching | Failed(reason: string)
}
