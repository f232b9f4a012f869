/** The member list screen: the guide column, the status label, the sortable table, the
    search box and the pagination controls, with the screen's state held in `MembersList`.
    `le(a, b)` stands for `a.localeCompare(b) <= 0`; the locale's collation is not modelled. */
module MembersListView {
  import opened Util
  import opened JsString
  import opened StableSort
  import Types

  type Member = Types.Member

  /** `firstName + " " + lastName`, as the table and the guide column show a person. */
  function DisplayName(m: Member): string {
    m.firstName + " " + m.lastName
  }

  // ---------------------------------------------------------------------------------------
  // Guide column

  /** `!member.assignedGDIId` is false: the id is present, not null and not empty. */
  predicate IsAssigned(gdiId: Option<string>) {
    gdiId.Some? && gdiId.value != ""
  }

  /** What the guide lookup finds: the indices are those of the first matching GDI and of the
      first roster member with that GDI's guide id. */
  datatype GuideLookup =
    | NotAssigned
    | GdiMissing
    | GuideMissing(gdiIndex: nat)
    | GuideFound(gdiIndex: nat, guideIndex: nat)

  /** The two `find` calls of the guide column. */
  function LookupGuide(m: Member, gdis: seq<Types.GDI>, roster: seq<Member>): (r: GuideLookup)
    ensures r.NotAssigned? <==> !IsAssigned(m.assignedGDIId)
    ensures r.GdiMissing? <==>
      IsAssigned(m.assignedGDIId) && forall j :: 0 <= j < |gdis| ==> gdis[j].id != m.assignedGDIId.value
    ensures (r.GuideMissing? || r.GuideFound?) ==>
      && IsAssigned(m.assignedGDIId)
      && r.gdiIndex < |gdis| && gdis[r.gdiIndex].id == m.assignedGDIId.value
      && forall j :: 0 <= j < r.gdiIndex ==> gdis[j].id != m.assignedGDIId.value
    ensures r.GuideMissing? ==>
      forall j :: 0 <= j < |roster| ==> roster[j].id != gdis[r.gdiIndex].guideId
    ensures r.GuideFound? ==>
      && r.guideIndex < |roster| && roster[r.guideIndex].id == gdis[r.gdiIndex].guideId
      && forall j :: 0 <= j < r.guideIndex ==> roster[j].id != gdis[r.gdiIndex].guideId
  {
    if !IsAssigned(m.assignedGDIId) then NotAssigned
    else
      var id := m.assignedGDIId.value;
      match FindIndex(gdis, (g: Types.GDI) => g.id == id)
      case None => GdiMissing
      case Some(gi) =>
        match FindIndex(roster, (p: Member) => p.id == gdis[gi].guideId)
        case None => GuideMissing(gi)
        case Some(k) => GuideFound(gi, k)
  }

  const NotAssignedLabel: string := "No asignado"
  const GdiMissingLabel: string := "GDI no encontrado"
  const GuideMissingLabel: string := "Guía no encontrado"

  predicate IsGuideLabel(s: string) {
    s == NotAssignedLabel || s == GdiMissingLabel || s == GuideMissingLabel
  }

  /** The text of the guide column (`getGdiGuideName`). */
  function GuideName(m: Member, gdis: seq<Types.GDI>, roster: seq<Member>): (r: string)
    ensures !IsAssigned(m.assignedGDIId) ==> r == NotAssignedLabel
    ensures LookupGuide(m, gdis, roster).GdiMissing? ==> r == GdiMissingLabel
    ensures LookupGuide(m, gdis, roster).GuideMissing? ==> r == GuideMissingLabel
    ensures LookupGuide(m, gdis, roster).GuideFound? ==>
      r == DisplayName(roster[LookupGuide(m, gdis, roster).guideIndex])
  {
    match LookupGuide(m, gdis, roster)
    case NotAssigned => NotAssignedLabel
    case GdiMissing => GdiMissingLabel
    case GuideMissing(_) => GuideMissingLabel
    case GuideFound(_, k) => DisplayName(roster[k])
  }

  /** The three labels differ from one another. */
  lemma GuideLabelsDistinct()
    ensures NotAssignedLabel != GdiMissingLabel && NotAssignedLabel != GuideMissingLabel
    ensures GdiMissingLabel != GuideMissingLabel
  {
    assert NotAssignedLabel[0] == 'N' && GdiMissingLabel[0] == 'G' && GuideMissingLabel[0] == 'G';
    assert GdiMissingLabel[1] == 'D' && GuideMissingLabel[1] == 'u';
  }

  /** When no person on the roster is called like one of the labels, the column tells each
      case apart: each label appears exactly in its own case, and otherwise the column shows
      the name of the first roster member whose id is the guide id of the first GDI with the
      member's GDI id. */
  lemma GuideNameIdentifiesCase(m: Member, gdis: seq<Types.GDI>, roster: seq<Member>)
    requires forall j :: 0 <= j < |roster| ==> !IsGuideLabel(DisplayName(roster[j]))
    ensures GuideName(m, gdis, roster) == NotAssignedLabel <==> !IsAssigned(m.assignedGDIId)
    ensures GuideName(m, gdis, roster) == GdiMissingLabel <==>
      IsAssigned(m.assignedGDIId) && forall j :: 0 <= j < |gdis| ==> gdis[j].id != m.assignedGDIId.value
    ensures GuideName(m, gdis, roster) == GuideMissingLabel <==> LookupGuide(m, gdis, roster).GuideMissing?
    ensures !IsGuideLabel(GuideName(m, gdis, roster)) <==> LookupGuide(m, gdis, roster).GuideFound?
  {
    GuideLabelsDistinct();
    var r := LookupGuide(m, gdis, roster);
    if r.GuideFound? {
      assert !IsGuideLabel(DisplayName(roster[r.guideIndex]));
    }
  }

  /** A member with an empty GDI id counts as not assigned, like one without any. */
  lemma EmptyGdiIdIsNotAssigned(m: Member, gdis: seq<Types.GDI>, roster: seq<Member>)
    requires m.assignedGDIId == Some("")
    ensures GuideName(m, gdis, roster) == NotAssignedLabel
  {
  }

  function SamplePerson(id: string, firstName: string, lastName: string, gdiId: Option<string>): Member {
    Types.Member(id, firstName, lastName, "", "", None, None, None, None, None, None, gdiId, None,
      Types.Active, None, None)
  }

  /** The labels share the column with names: a guide called "GDI" "no encontrado" is shown
      exactly like a missing GDI. */
  lemma GuideLabelCollision()
    ensures
      var guide := SamplePerson("g", "GDI", "no encontrado", None);
      var gdis := [Types.GDI("x", "Grupo", "g", [])];
      var member := SamplePerson("m", "Ana", "Ruiz", Some("x"));
      && LookupGuide(member, gdis, [guide]).GuideFound?
      && GuideName(member, gdis, [guide]) == GdiMissingLabel
  {
    var guide := SamplePerson("g", "GDI", "no encontrado", None);
    var gdis := [Types.GDI("x", "Grupo", "g", [])];
    var member := SamplePerson("m", "Ana", "Ruiz", Some("x"));
    assert LookupGuide(member, gdis, [guide]) == GuideFound(0, 0);
  }

  // ---------------------------------------------------------------------------------------
  // Status label

  /** The stored status text, which is also what the table sorts on. */
  function StatusText(s: Types.MemberStatus): string {
    match s
    case Active => "Active"
    case Inactive => "Inactive"
    case New => "New"
  }

  /** The Spanish label of a status (`displayStatus`). */
  function DisplayStatus(s: Types.MemberStatus): (r: string)
    ensures s == Types.Active ==> r == "Activo"
    ensures s == Types.Inactive ==> r == "Inactivo"
    ensures s == Types.New ==> r == "Nuevo"
  {
    match s
    case Active => "Activo"
    case Inactive => "Inactivo"
    case New => "Nuevo"
  }

  /** Different statuses get different labels, so the label identifies the status. */
  lemma DisplayStatusInjective(a: Types.MemberStatus, b: Types.MemberStatus)
    ensures DisplayStatus(a) == DisplayStatus(b) <==> a == b
  {
    if a != b {
      var la, lb := DisplayStatus(a), DisplayStatus(b);
      assert |la| != |lb|;
    }
  }

  // ---------------------------------------------------------------------------------------
  // Sorting

  /** The columns the table can be sorted by. */
  datatype SortKey = Id | FirstName | LastName | Phone | BirthDate | ChurchJoinDate | Status | FullName

  datatype SortOrder = Asc | Desc

  datatype SortState = SortState(key: SortKey, order: SortOrder)

  /** The initial sort of the table. */
  const InitialSort := SortState(FullName, Asc)

  /** A click on a column header (`handleSort`): the sorted column flips its order, any other
      column becomes the sorted one, ascending. */
  function ClickHeader(s: SortState, key: SortKey): (r: SortState)
    ensures r.key == key
    ensures s.key == key ==> r.order != s.order
    ensures s.key != key ==> r.order == Asc
  {
    if s.key == key then SortState(key, if s.order == Asc then Desc else Asc)
    else SortState(key, Asc)
  }

  /** Two clicks on the sorted column restore the sort. */
  lemma ClickSortedHeaderTwice(s: SortState)
    ensures ClickHeader(ClickHeader(s, s.key), s.key) == s
  {
  }

  /** Two clicks on another column sort by it, descending. */
  lemma ClickOtherHeaderTwice(s: SortState, key: SortKey)
    requires s.key != key
    ensures ClickHeader(ClickHeader(s, key), key) == SortState(key, Desc)
  {
  }

  /** The string a member is compared by; a missing value compares as "". Every sortable
      column holds a string, so the numeric and date branches of the comparator never run. */
  function SortValue(m: Member, key: SortKey): (r: string)
    ensures key == FullName ==> r == m.firstName + " " + m.lastName
    ensures key == BirthDate ==> (m.birthDate.None? ==> r == "") && (m.birthDate.Some? ==> r == m.birthDate.value)
    ensures key == ChurchJoinDate ==>
      (m.churchJoinDate.None? ==> r == "") && (m.churchJoinDate.Some? ==> r == m.churchJoinDate.value)
    ensures key == Status ==> r in ["Active", "Inactive", "New"]
  {
    match key
    case Id => m.id
    case FirstName => m.firstName
    case LastName => m.lastName
    case Phone => m.phone
    case BirthDate => m.birthDate.GetOr("")
    case ChurchJoinDate => m.churchJoinDate.GetOr("")
    case Status => StatusText(m.status)
    case FullName => DisplayName(m)
  }

  /** `compare(a, b) <= 0` for the table's comparator: ascending compares `a`'s value with
      `b`'s, descending `b`'s with `a`'s. */
  function Comparator(key: SortKey, order: SortOrder, le: (string, string) -> bool): (r: (Member, Member) -> bool)
    ensures order == Asc ==> forall a, b :: r(a, b) == le(SortValue(a, key), SortValue(b, key))
    ensures order == Desc ==> forall a, b :: r(a, b) == Comparator(key, Asc, le)(b, a)
    decreases order == Desc
  {
    (a: Member, b: Member) =>
      if order == Asc then le(SortValue(a, key), SortValue(b, key))
      else le(SortValue(b, key), SortValue(a, key))
  }

  /** A consistent collation gives a consistent comparator, in either order. */
  lemma ComparatorIsTotalPreorder(key: SortKey, order: SortOrder, le: (string, string) -> bool)
    requires TotalPreorder(le)
    ensures TotalPreorder(Comparator(key, order, le))
  {
    var c := Comparator(key, order, le);
    forall a, b ensures c(a, b) || c(b, a) {
      assert le(SortValue(a, key), SortValue(b, key)) || le(SortValue(b, key), SortValue(a, key));
    }
    forall a, b, d | c(a, b) && c(b, d) ensures c(a, d) {
      var va, vb, vd := SortValue(a, key), SortValue(b, key), SortValue(d, key);
      if order == Asc {
        assert le(va, vb) && le(vb, vd);
      } else {
        assert le(vd, vb) && le(vb, va);
      }
    }
  }

  /** The rows of the table: a stably sorted copy of `members`. */
  function SortedMembers(members: seq<Member>, key: SortKey, order: SortOrder, le: (string, string) -> bool): (r: seq<Member>)
    ensures |r| == |members|
    ensures forall i :: 0 <= i < |r| ==> r[i] in members
  {
    var c := Comparator(key, order, le);
    InsertionSortPermutes(members, c);
    assert forall i :: 0 <= i < |members| ==> InsertionSort(members, c)[i] in multiset(members);
    InsertionSort(members, c)
  }

  /** The rows are the members, each as often as in `members`. */
  lemma SortedMembersPermutes(members: seq<Member>, key: SortKey, order: SortOrder, le: (string, string) -> bool)
    ensures multiset(SortedMembers(members, key, order, le)) == multiset(members)
  {
    InsertionSortPermutes(members, Comparator(key, order, le));
  }

  /** Ascending, every row's value collates no later than those below it; descending, no
      earlier. */
  lemma SortedMembersOrdered(members: seq<Member>, key: SortKey, order: SortOrder, le: (string, string) -> bool)
    requires TotalPreorder(le)
    ensures var r := SortedMembers(members, key, order, le);
      forall i, j :: 0 <= i < j < |r| ==>
        if order == Asc then le(SortValue(r[i], key), SortValue(r[j], key))
        else le(SortValue(r[j], key), SortValue(r[i], key))
  {
    ComparatorIsTotalPreorder(key, order, le);
    InsertionSortSorted(members, Comparator(key, order, le));
    var r := SortedMembers(members, key, order, le);
    forall i, j | 0 <= i < j < |r|
      ensures if order == Asc then le(SortValue(r[i], key), SortValue(r[j], key))
              else le(SortValue(r[j], key), SortValue(r[i], key))
    {
      assert Comparator(key, order, le)(r[i], r[j]);
    }
  }

  /** The members whose value in column `key` is `v`. */
  function HasValue(key: SortKey, v: string): Member -> bool {
    (m: Member) => SortValue(m, key) == v
  }

  /** Stability: the members with the same value keep the order they have in `members`. */
  lemma SortedMembersStable(members: seq<Member>, key: SortKey, order: SortOrder, le: (string, string) -> bool, v: string)
    requires TotalPreorder(le)
    ensures Filter(SortedMembers(members, key, order, le), HasValue(key, v)) == Filter(members, HasValue(key, v))
  {
    var c := Comparator(key, order, le);
    forall a, b | HasValue(key, v)(a) && HasValue(key, v)(b) ensures c(a, b) {
      assert le(v, v) || le(v, v);
    }
    InsertionSortStable(members, HasValue(key, v), c);
  }

  // ---------------------------------------------------------------------------------------
  // Updating a member

  /** `members.map(m => m.id === updated.id ? updated : m)`. */
  function ReplaceById(s: seq<Member>, updated: Member): (r: seq<Member>)
    ensures |r| == |s|
    ensures forall i :: 0 <= i < |s| ==> r[i] == (if s[i].id == updated.id then updated else s[i])
  {
    if s == [] then []
    else [if s[0].id == updated.id then updated else s[0]] + ReplaceById(s[1..], updated)
  }

  /** The ids of the list, in order, are those of the old list. */
  lemma ReplaceByIdKeepsIds(s: seq<Member>, updated: Member)
    ensures var r := ReplaceById(s, updated);
      forall i :: 0 <= i < |s| ==> r[i].id == s[i].id
  {
  }

  /** Applying the same update twice is applying it once. */
  lemma ReplaceByIdIdempotent(s: seq<Member>, updated: Member)
    ensures ReplaceById(ReplaceById(s, updated), updated) == ReplaceById(s, updated)
  {
  }

  /** An update for an id that is not listed changes nothing. */
  lemma ReplaceByIdAbsent(s: seq<Member>, updated: Member)
    requires forall i :: 0 <= i < |s| ==> s[i].id != updated.id
    ensures ReplaceById(s, updated) == s
  {
  }

  // ---------------------------------------------------------------------------------------
  // URL parameters and pagination

  /** The query string as a dictionary from parameter name to value. */
  type Params = map<string, string>

  const PageParam: string := "page"
  const SearchParam: string := "search"
  const PageSizeParam: string := "pageSize"

  /** Only `changed` may differ between `p` and `q`. */
  ghost predicate SameOutside(p: Params, q: Params, changed: set<string>) {
    forall k :: k !in changed ==> (k in p <==> k in q) && (k in p ==> p[k] == q[k])
  }

  /** The query after submitting the search box (`handleSearchSubmit`): back to page 1, the
      trimmed input as the search term, or no search term when nothing but white space was
      typed; every other parameter kept. */
  function SubmitSearch(params: Params, input: string): (r: Params)
    ensures PageParam in r && r[PageParam] == "1"
    ensures Trim(input) != [] ==> SearchParam in r && r[SearchParam] == Trim(input)
    ensures Trim(input) == [] ==> SearchParam !in r
    ensures SameOutside(r, params, {PageParam, SearchParam})
  {
    var p := params[PageParam := "1"];
    var t := Trim(input);
    assert PageParam != SearchParam;
    if t != [] then p[SearchParam := t] else p - {SearchParam}
  }

  /** The search term in the query never has white space at either end, and submitting the
      same input again changes nothing. */
  lemma SubmitSearchIdempotent(params: Params, input: string)
    ensures var r := SubmitSearch(params, input);
      && (SearchParam in r ==> r[SearchParam] != [] && !IsWhiteSpace(r[SearchParam][0])
                               && !IsWhiteSpace(r[SearchParam][|r[SearchParam]| - 1]))
      && SubmitSearch(r, input) == r
  {
    var r := SubmitSearch(params, input);
    var t := Trim(input);
    assert PageParam != SearchParam;
    SetToSameValue(r, PageParam, "1");
    if t != [] {
      assert SearchParam in r && r[SearchParam] == t;
      SetToSameValue(r, SearchParam, t);
      assert SubmitSearch(r, input) == r[PageParam := "1"][SearchParam := t];
    } else {
      assert SearchParam !in r;
      RemoveAbsentKey(r, SearchParam);
      assert SubmitSearch(r, input) == r[PageParam := "1"] - {SearchParam};
    }
  }

  lemma SetToSameValue(m: Params, k: string, v: string)
    requires k in m && m[k] == v
    ensures m[k := v] == m
  {
  }

  lemma RemoveAbsentKey(m: Params, k: string)
    requires k !in m
    ensures m - {k} == m
  {
  }

  /** The query a page link leads to (`createPageURL`): `page` is the page number written in
      decimal, and reads back as that number. */
  function PageLink(params: Params, pageNumber: int): (r: Params)
    ensures PageParam in r && r[PageParam] == IntToString(pageNumber)
    ensures ParseInt(r[PageParam]) == Some(pageNumber)
    ensures SameOutside(r, params, {PageParam})
  {
    IntToStringRoundTrip(pageNumber);
    params[PageParam := IntToString(pageNumber)]
  }

  /** The query after choosing a page size (`handlePageSizeChange`): the new size, page 1,
      every other parameter kept. */
  function ChangePageSize(params: Params, newSize: string): (r: Params)
    ensures PageSizeParam in r && r[PageSizeParam] == newSize
    ensures PageParam in r && r[PageParam] == "1"
    ensures SameOutside(r, params, {PageParam, PageSizeParam})
  {
    params[PageSizeParam := newSize][PageParam := "1"]
  }

  /** Changing the page size lands on the same query as following the link to page 1 after
      setting the size. */
  lemma ChangePageSizeIsFirstPage(params: Params, newSize: string)
    ensures ChangePageSize(params, newSize) == PageLink(params[PageSizeParam := newSize], 1)
  {
    assert IntToString(1) == "1";
  }

  /** The "previous" button is disabled on the first page and while a member is being saved. */
  function PrevDisabled(currentPage: int, isProcessing: bool): (r: bool)
    ensures !r <==> !isProcessing && 1 <= currentPage - 1
  {
    currentPage <= 1 || isProcessing
  }

  /** The "next" button is disabled on the last page and while a member is being saved. */
  function NextDisabled(currentPage: int, totalPages: int, isProcessing: bool): (r: bool)
    ensures !r <==> !isProcessing && currentPage + 1 <= totalPages
  {
    currentPage >= totalPages || isProcessing
  }

  /** From a page that exists, an enabled button leads to a page that exists. */
  lemma NavigationStaysInRange(currentPage: int, totalPages: int, isProcessing: bool)
    requires 1 <= currentPage <= totalPages
    ensures !PrevDisabled(currentPage, isProcessing) ==> 1 <= currentPage - 1 <= totalPages
    ensures !NextDisabled(currentPage, totalPages, isProcessing) ==> 1 <= currentPage + 1 <= totalPages
    ensures totalPages == 1 ==> PrevDisabled(currentPage, isProcessing) && NextDisabled(currentPage, totalPages, isProcessing)
  {
  }

  // ---------------------------------------------------------------------------------------
  // The screen's state

  /** The state the member list keeps between renders: the listed members, the search box,
      the sort and the query of the current URL. */
  class MembersList {
    var members: seq<Member>
    var searchInput: string
    var sortKey: SortKey
    var sortOrder: SortOrder
    var params: Params

    /** The first render: the members and search term passed in, sorted by full name. */
    constructor(initialMembers: seq<Member>, currentSearchTerm: string, urlParams: Params)
      ensures members == initialMembers && searchInput == currentSearchTerm
      ensures SortState(sortKey, sortOrder) == InitialSort && params == urlParams
    {
      members := initialMembers;
      searchInput := currentSearchTerm;
      sortKey := FullName;
      sortOrder := Asc;
      params := urlParams;
    }

    /** New members passed in replace the listed ones. */
    method ResetMembers(initialMembers: seq<Member>)
      modifies this`members
      ensures members == initialMembers
    {
      members := initialMembers;
    }

    /** Typing in the search box (`handleSearchChange`), or a new search term passed in. */
    method SetSearchInput(value: string)
      modifies this`searchInput
      ensures searchInput == value
    {
      searchInput := value;
    }

    /** A click on a column header (`handleSort`). */
    method HandleSort(key: SortKey)
      modifies this`sortKey, this`sortOrder
      ensures SortState(sortKey, sortOrder) == ClickHeader(old(SortState(sortKey, sortOrder)), key)
    {
      if sortKey == key {
        sortOrder := if sortOrder == Asc then Desc else Asc;
      } else {
        sortKey := key;
        sortOrder := Asc;
      }
    }

    /** The rows of the table (`processedMembers`): a copy of `members` sorted in place; the
        listed members themselves keep their order. */
    method ProcessedMembers(le: (string, string) -> bool) returns (r: seq<Member>)
      ensures r == SortedMembers(members, sortKey, sortOrder, le)
      ensures multiset(r) == multiset(members)
    {
      var ms := members;
      var copy := new Member[|ms|](i requires 0 <= i < |ms| => ms[i]);
      assert copy[..] == ms;
      SortInPlace(copy, Comparator(sortKey, sortOrder, le));
      r := copy[..];
      SortedMembersPermutes(ms, sortKey, sortOrder, le);
    }

    /** A member edited in the details dialog replaces every listed member with its id
        (`handleMemberUpdated`). */
    method HandleMemberUpdated(updated: Member)
      modifies this`members
      ensures members == ReplaceById(old(members), updated)
    {
      members := ReplaceById(members, updated);
    }

    /** Submitting the search box (`handleSearchSubmit`) navigates to the new query. */
    method HandleSearchSubmit()
      modifies this`params
      ensures params == SubmitSearch(old(params), searchInput)
    {
      var p := params[PageParam := "1"];
      var term := Trim(searchInput);
      if term != [] {
        p := p[SearchParam := term];
      } else {
        p := p - {SearchParam};
      }
      assert p == SubmitSearch(params, searchInput);
      params := p;
    }

    /** Choosing a page size (`handlePageSizeChange`) navigates to the new query. */
    method HandlePageSizeChange(newSize: string)
      modifies this`params
      ensures params == ChangePageSize(old(params), newSize)
    {
      var p := params[PageSizeParam := newSize];
      p := p[PageParam := "1"];
      params := p;
    }
  }
}
