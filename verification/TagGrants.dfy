/** Tags a space may write and read (`packages/hub-daemon/src/memory-grants.ts`), and what the
    in-memory memory engine returns for a filter (`packages/hub-daemon/src/memory-mcp-client.ts`). */
module TagGrants {
  import opened JsText
  import opened Selections
  import opened Wrappers

  /** A tool argument, as decoded from JSON. */
  datatype Value = Missing | Text(text: string) | List(items: seq<Value>) | Object(fields: map<string, Value>) | Other

  /** `None`: all scopes.  An empty list grants nothing. */
  type Grant = Option<seq<string>>

  datatype Verdict<T> = Granted(value: T) | Outside(unknown: seq<string>)

  function Field(raw: Value, name: string): Value {
    if raw.Object? && name in raw.fields then raw.fields[name] else Missing
  }

  /** The strings of a list, as the engine reads them. */
  function Strings(items: seq<Value>): seq<string> {
    if items == [] then []
    else
      var front, last := Strings(items[..|items| - 1]), items[|items| - 1];
      if last.Text? then front + [last.text] else front
  }

  function StringList(value: Value): seq<string> {
    if value.List? then Strings(value.items) else []
  }

  /** As the hub reads them: trimmed, without the blank ones. */
  function Trimmed(tags: seq<string>): seq<string> {
    if tags == [] then []
    else
      var front, last := Trimmed(tags[..|tags| - 1]), Trim(tags[|tags| - 1]);
      if last == "" then front else front + [last]
  }

  function TagList(value: Value): seq<string> {
    Trimmed(StringList(value))
  }

  function OutsideGrant(granted: seq<string>, requested: seq<string>): seq<string> {
    if requested == [] then []
    else
      var front, last := OutsideGrant(granted, requested[..|requested| - 1]), requested[|requested| - 1];
      if last in granted then front else front + [last]
  }

  function EnforceRetainTags(grant: Grant, requested: Value): Verdict<seq<string>> {
    var tags := TagList(requested);
    if tags == [] || grant.None? then Granted(tags)
    else if OutsideGrant(grant.value, tags) != [] then Outside(OutsideGrant(grant.value, tags))
    else Granted(tags)
  }

  datatype Filter = Filter(tags: seq<string>, mode: Option<string>, untagged: Option<string>)

  function OneOf(value: Value, options: set<string>): Option<string> {
    if value.Text? && value.text in options then Some(value.text) else None
  }

  function OrElse(value: Option<string>, fallback: string): Option<string> {
    if value.Some? then value else Some(fallback)
  }

  /** The filter a read may use; `None` filters nothing. */
  function EnforceReadTags(grant: Grant, requested: Value): Verdict<Option<Filter>> {
    var mode := OneOf(Field(requested, "match"), {"any", "all", "exact"});
    var untagged := OneOf(Field(requested, "untagged"), {"include", "exclude"});
    var tags := TagList(Field(requested, "tags"));
    if grant.None? then
      Granted(if requested.Object? then Some(Filter(tags, mode, untagged)) else None)
    else if requested.Object? then
      if tags == [] then Granted(Some(Filter([], OrElse(mode, "exact"), OrElse(untagged, "include"))))
      else if OutsideGrant(grant.value, tags) != [] then Outside(OutsideGrant(grant.value, tags))
      else Granted(Some(Filter(tags, mode, untagged)))
    else if grant.value == [] then Granted(Some(Filter([], Some("exact"), Some("include"))))
    else Granted(Some(Filter(grant.value, Some("any"), Some("include"))))
  }

  predicate Overlaps(a: seq<string>, b: seq<string>) {
    exists k | 0 <= k < |a| :: a[k] in b
  }

  /** The engine looks at the tags and at `untagged`; it does not look at `match`. */
  predicate MatchesTagFilter(factTags: seq<string>, filter: Option<Filter>) {
    match filter
    case None => true
    case Some(f) => if factTags == [] then f.untagged != Some("exclude") else Overlaps(f.tags, factTags)
  }

  // ---------------------------------------------------------------- grants and tags

  predicate AllGranted(granted: seq<string>, tags: seq<string>) {
    forall k :: 0 <= k < |tags| ==> tags[k] in granted
  }

  lemma {:induction false} OutsideGrantIff(granted: seq<string>, requested: seq<string>)
    ensures OutsideGrant(granted, requested) == [] <==> AllGranted(granted, requested)
  {
    if requested != [] {
      var n := |requested| - 1;
      OutsideGrantIff(granted, requested[..n]);
      assert AllGranted(granted, requested) <==> AllGranted(granted, requested[..n]) && requested[n] in granted by {
        assert forall k :: 0 <= k < n ==> requested[..n][k] == requested[k];
      }
    }
  }

  /** A list item that asks for a tag: a text that is not blank. */
  predicate NamesTag(item: Value) {
    item.Text? && Trim(item.text) != ""
  }

  /** The items of a tool argument that ask for tags. */
  function Naming(requested: Value): seq<Value> {
    if requested.List? then Kept(requested.items, NamesTag) else []
  }

  /** `tags` are the texts of those items, trimmed. */
  predicate Asks(requested: Value, tags: seq<string>) {
    Texts(Naming(requested), tags)
  }

  predicate Texts(items: seq<Value>, tags: seq<string>) {
    |tags| == |items| && forall k :: 0 <= k < |items| ==> items[k].Text? && tags[k] == Trim(items[k].text)
  }

  lemma TrimmedSnoc(tags: seq<string>, tag: string)
    ensures Trimmed(tags + [tag]) == if Trim(tag) == "" then Trimmed(tags) else Trimmed(tags) + [Trim(tag)]
  {
    assert (tags + [tag])[..|tags|] == tags;
  }

  lemma TextsSnoc(items: seq<Value>, tags: seq<string>, item: Value)
    requires Texts(items, tags) && item.Text?
    ensures Texts(items + [item], tags + [Trim(item.text)])
  {
  }

  lemma {:induction false} TagsAsked(items: seq<Value>)
    ensures Texts(Kept(items, NamesTag), Trimmed(Strings(items)))
  {
    if items != [] {
      var front, last := items[..|items| - 1], items[|items| - 1];
      TagsAsked(front);
      if last.Text? {
        TrimmedSnoc(Strings(front), last.text);
        TextsSnoc(Kept(front, NamesTag), Trimmed(Strings(front)), last);
      }
    }
  }

  lemma TagListIsAsked(requested: Value)
    ensures Asks(requested, TagList(requested))
  {
    if requested.List? {
      TagsAsked(requested.items);
    }
  }

  /** One of the argument's items asks for this tag. */
  ghost predicate AsksFor(requested: Value, tag: string) {
    requested.List? && exists k :: 0 <= k < |requested.items| && NamesTag(requested.items[k]) && Trim(requested.items[k].text) == tag
  }

  /** The grant has every tag the argument asks for. */
  ghost predicate GrantsAll(grant: Grant, requested: Value) {
    grant.Some? ==> forall tag :: AsksFor(requested, tag) ==> tag in grant.value
  }

  lemma AsksForIff(requested: Value, tag: string)
    ensures AsksFor(requested, tag) <==> tag in TagList(requested)
  {
    TagListIsAsked(requested);
    var items, tags := Naming(requested), TagList(requested);
    if tag in tags {
      var k :| 0 <= k < |tags| && tags[k] == tag;
      KeptHas(requested.items, NamesTag, items[k]);
    }
    if AsksFor(requested, tag) {
      var k :| 0 <= k < |requested.items| && NamesTag(requested.items[k]) && Trim(requested.items[k].text) == tag;
      KeptHas(requested.items, NamesTag, requested.items[k]);
      var j :| 0 <= j < |items| && items[j] == requested.items[k];
      assert tags[j] == tag;
    }
  }

  /** Tags are accepted exactly when the grant has every one of them, and then kept as asked;
      otherwise the refusal names those that are not granted. */
  lemma RetainIff(grant: Grant, requested: Value)
    ensures EnforceRetainTags(grant, requested).Granted? <==> GrantsAll(grant, requested)
    ensures match EnforceRetainTags(grant, requested)
      case Granted(tags) => Asks(requested, tags)
      case Outside(unknown) =>
        grant.Some? && Asks(requested, TagList(requested)) && unknown == Kept(TagList(requested), tag => tag !in grant.value)
  {
    TagListIsAsked(requested);
    if grant.Some? {
      GrantsAllIff(grant, requested);
      OutsideGrantIff(grant.value, TagList(requested));
      OutsideIsKept(grant.value, TagList(requested), tag => tag !in grant.value);
    }
  }

  lemma GrantsAllIff(grant: Grant, requested: Value)
    requires grant.Some?
    ensures AllGranted(grant.value, TagList(requested)) <==> GrantsAll(grant, requested)
  {
    forall tag
      ensures AsksFor(requested, tag) <==> tag in TagList(requested)
    {
      AsksForIff(requested, tag);
    }
  }

  lemma {:induction false} OutsideIsKept(granted: seq<string>, requested: seq<string>, keep: string -> bool)
    requires forall tag :: keep(tag) <==> tag !in granted
    ensures OutsideGrant(granted, requested) == Kept(requested, keep)
  {
    if requested != [] {
      OutsideIsKept(granted, requested[..|requested| - 1], keep);
    }
  }

  /** What a space may write it finds again: the default read filter of a grant matches every fact
      whose tags the same grant accepts. */
  lemma WrittenIsRead(grant: Grant, requested: Value, unfiltered: Value)
    requires EnforceRetainTags(grant, requested).Granted? && !unfiltered.Object?
    ensures EnforceReadTags(grant, unfiltered).Granted?
    ensures MatchesTagFilter(EnforceRetainTags(grant, requested).value, EnforceReadTags(grant, unfiltered).value)
  {
    var tags := TagList(requested);
    if grant.Some? && tags != [] {
      OutsideGrantIff(grant.value, tags);
      var k :| 0 <= k < |grant.value| && grant.value[k] == tags[0];
      assert grant.value[k] in tags;
    }
  }

  /** Under a limited grant, whatever filter is accepted shows only facts without tags or with a
      granted one. */
  lemma LimitedGrantShowsGranted(grant: Grant, requested: Value, factTags: seq<string>)
    requires grant.Some? && EnforceReadTags(grant, requested).Granted?
    requires MatchesTagFilter(factTags, EnforceReadTags(grant, requested).value)
    ensures factTags == [] || Overlaps(grant.value, factTags)
  {
    var tags := TagList(Field(requested, "tags"));
    if requested.Object? && tags != [] {
      OutsideGrantIff(grant.value, tags);
      if factTags != [] {
        var k :| 0 <= k < |tags| && tags[k] in factTags;
        var j :| 0 <= j < |grant.value| && grant.value[j] == tags[k];
        assert grant.value[j] in factTags;
      }
    }
  }

  /** The argument is an object with this field. */
  predicate Given(requested: Value, name: string, value: Value) {
    requested.Object? && name in requested.fields && requested.fields[name] == value
  }

  /** The filter asks for this tag. */
  ghost predicate FiltersFor(requested: Value, tag: string) {
    exists tags :: Given(requested, "tags", tags) && AsksFor(tags, tag)
  }

  lemma FiltersForIff(requested: Value, tag: string)
    ensures FiltersFor(requested, tag) <==> tag in TagList(Field(requested, "tags"))
  {
    AsksForIff(Field(requested, "tags"), tag);
    if requested.Object? && "tags" in requested.fields {
      assert Given(requested, "tags", requested.fields["tags"]);
    }
  }

  /** Which facts a reader sees: without a filter, those its grant allows; with one, those that carry a
      tag it asks for, and those without tags unless it excludes them. */
  ghost predicate Shown(grant: Grant, requested: Value, factTags: seq<string>) {
    if !requested.Object? then grant.None? || factTags == [] || exists tag :: tag in factTags && tag in grant.value
    else if factTags == [] then !Given(requested, "untagged", Text("exclude"))
    else exists tag :: tag in factTags && FiltersFor(requested, tag)
  }

  /** A filter is accepted exactly when every tag it asks for is granted; what the engine then returns
      are the facts shown. */
  lemma ShownIff(grant: Grant, requested: Value, factTags: seq<string>)
    ensures var verdict := EnforceReadTags(grant, requested);
      && (verdict.Granted? <==> grant.None? || forall tag :: FiltersFor(requested, tag) ==> tag in grant.value)
      && (verdict.Granted? ==> (MatchesTagFilter(factTags, verdict.value) <==> Shown(grant, requested, factTags)))
  {
    var tags := TagList(Field(requested, "tags"));
    forall tag
      ensures FiltersFor(requested, tag) <==> tag in tags
    {
      FiltersForIff(requested, tag);
    }
    if grant.Some? {
      OutsideGrantIff(grant.value, tags);
      OverlapsIff(grant.value, factTags);
    }
    OverlapsIff(tags, factTags);
  }

  lemma OverlapsIff(a: seq<string>, b: seq<string>)
    ensures Overlaps(a, b) <==> exists tag :: tag in b && tag in a
  {
    if exists tag :: tag in b && tag in a {
      var tag :| tag in b && tag in a;
      var k :| 0 <= k < |a| && a[k] == tag;
    }
  }

  /** The mode that goes with the filter: the one asked for, if it is one; for a limited grant, otherwise
      `exact` where no tag is asked for or granted, and `any` where the grant itself is the filter. */
  lemma ModeIs(grant: Grant, requested: Value)
    requires EnforceReadTags(grant, requested).Granted? && EnforceReadTags(grant, requested).value.Some?
    ensures var mode := EnforceReadTags(grant, requested).value.value.mode;
      if !requested.Object? then grant.Some? && mode == Some(if grant.value == [] then "exact" else "any")
      else if exists m :: m in {"any", "all", "exact"} && Given(requested, "match", Text(m)) then
        mode.Some? && Given(requested, "match", Text(mode.value))
      else mode == if grant.Some? && (forall tag :: !FiltersFor(requested, tag)) then Some("exact") else None
  {
    var tags := TagList(Field(requested, "tags"));
    forall tag
      ensures FiltersFor(requested, tag) <==> tag in tags
    {
      FiltersForIff(requested, tag);
    }
    assert tags != [] ==> FiltersFor(requested, tags[0]);
  }

  // ---------------------------------------------------------------- the engine

  datatype Fact = Fact(id: nat, text: string, tags: seq<string>)

  function Select(facts: seq<Fact>, filter: Option<Filter>): seq<Fact> {
    if facts == [] then []
    else
      var last := facts[|facts| - 1];
      Select(facts[..|facts| - 1], filter) + if MatchesTagFilter(last.tags, filter) then [last] else []
  }

  function Without(facts: seq<Fact>, id: nat): seq<Fact> {
    if facts == [] then []
    else
      var last := facts[|facts| - 1];
      Without(facts[..|facts| - 1], id) + if last.id != id then [last] else []
  }

  /** What a call does to the facts of a bank. */
  datatype Change = Retained(fact: Fact) | Retired(id: nat)

  function Changed(facts: seq<Fact>, change: Change): seq<Fact> {
    match change
    case Retained(fact) => facts + [fact]
    case Retired(id) => Without(facts, id)
  }

  class InMemoryMemoryMcp {
    var banks: map<string, seq<Fact>>
    var nextId: nat

    function Facts(bank: string): seq<Fact>
      reads this
    {
      if bank in banks then banks[bank] else []
    }

    constructor ()
      ensures banks == map[] && nextId == 1
    {
      banks, nextId := map[], 1;
    }

    method Retain(bank: string, text: string, tags: seq<string>) returns (id: nat)
      modifies this
      ensures id == old(nextId) && nextId == id + 1
      ensures banks == old(banks)[bank := Changed(old(Facts(bank)), Retained(Fact(id, text, tags)))]
    {
      id := nextId;
      nextId := nextId + 1;
      banks := banks[bank := Facts(bank) + [Fact(id, text, tags)]];
    }

    method Recent(bank: string, filter: Option<Filter>) returns (facts: seq<Fact>)
      ensures facts == Select(Facts(bank), filter)
    {
      facts := Select(Facts(bank), filter);
    }

    method Retire(bank: string, id: nat)
      modifies this`banks
      ensures banks == old(banks)[bank := Changed(old(Facts(bank)), Retired(id))]
    {
      banks := banks[bank := Without(Facts(bank), id)];
    }
  }

  lemma {:induction false} SelectHas(facts: seq<Fact>, filter: Option<Filter>, fact: Fact)
    ensures fact in Select(facts, filter) <==> fact in facts && MatchesTagFilter(fact.tags, filter)
  {
    if facts != [] {
      SelectHas(facts[..|facts| - 1], filter, fact);
      assert facts == facts[..|facts| - 1] + [facts[|facts| - 1]];
    }
  }

  lemma {:induction false} WithoutHas(facts: seq<Fact>, id: nat, fact: Fact)
    ensures fact in Without(facts, id) <==> fact in facts && fact.id != id
  {
    if facts != [] {
      WithoutHas(facts[..|facts| - 1], id, fact);
      assert facts == facts[..|facts| - 1] + [facts[|facts| - 1]];
    }
  }

  function Bank(facts: seq<Fact>, changes: seq<Change>): seq<Fact> {
    if changes == [] then facts
    else Changed(Bank(facts, changes[..|changes| - 1]), changes[|changes| - 1])
  }

  /** The fact is retained by one of the changes, and not retired by a later one. */
  ghost predicate RetainedBy(changes: seq<Change>, fact: Fact) {
    exists k :: 0 <= k < |changes| && changes[k] == Retained(fact) && Retired(fact.id) !in changes[k + 1..]
  }

  lemma RetainedBySnoc(changes: seq<Change>, last: Change, fact: Fact)
    ensures RetainedBy(changes + [last], fact)
      <==> last == Retained(fact) || (RetainedBy(changes, fact) && last != Retired(fact.id))
  {
    var all := changes + [last];
    assert all[|changes|] == last && all[|changes| + 1..] == [];
    forall k | 0 <= k < |changes|
      ensures all[k] == changes[k] && all[k + 1..] == changes[k + 1..] + [last]
    {
    }
  }

  /** A bank holds exactly the facts it had or retained, and has not retired since. */
  lemma {:induction false} BankHas(facts: seq<Fact>, changes: seq<Change>, fact: Fact)
    ensures fact in Bank(facts, changes)
      <==> (fact in facts && Retired(fact.id) !in changes) || RetainedBy(changes, fact)
  {
    if changes != [] {
      var front, last := changes[..|changes| - 1], changes[|changes| - 1];
      assert changes == front + [last];
      BankHas(facts, front, fact);
      RetainedBySnoc(front, last, fact);
      if last.Retired? {
        WithoutHas(Bank(facts, front), last.id, fact);
      }
    }
  }

  /** A fact written under a grant comes back with every default read of the same grant, whatever
      else is retained and retired, until it is itself retired. */
  lemma FoundUntilRetired(
      facts: seq<Fact>, changes: seq<Change>, fact: Fact, grant: Grant, requested: Value, unfiltered: Value)
    requires EnforceRetainTags(grant, requested) == Granted(fact.tags) && !unfiltered.Object?
    requires (fact in facts && Retired(fact.id) !in changes) || RetainedBy(changes, fact)
    ensures EnforceReadTags(grant, unfiltered).Granted?
    ensures fact in Select(Bank(facts, changes), EnforceReadTags(grant, unfiltered).value)
  {
    WrittenIsRead(grant, requested, unfiltered);
    BankHas(facts, changes, fact);
    SelectHas(Bank(facts, changes), EnforceReadTags(grant, unfiltered).value, fact);
  }
}
