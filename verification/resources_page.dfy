/**
 * The learning-resources page: its login gate, the list request, the empty
 * state and the category filter.
 */
module ResourcesPage {
  import opened Wrappers
  import opened Seqs
  import opened Browser
  import LoginPage
  import CreateRoomPage
  import JoinRoomPage

  const API_BASE_URL: string := "http://localhost:8080/api"
  const ALL: string := "all"
  const UNAUTHORIZED: nat := 401

  /** A resource as the list endpoint returns it; absent JSON fields are `None`. */
  datatype Resource = Resource(
    id: Option<string>,
    title: Option<string>,
    description: Option<string>,
    url: Option<string>,
    category: Option<string>)

  /** `checkLoginStatus`: true iff some user is stored, whether or not it has a name. */
  function CheckLoginStatus(storage: LoginPage.Storage): (shown: bool)
    ensures shown <==> storage.Some?
    ensures LoginPage.IsLoggedIn(storage) ==> shown
  {
    storage.Some?
  }

  /** The list request `fetchResources` sends, if any: none without a stored user. */
  function ResourcesRequest(storage: LoginPage.Storage): (url: Option<string>)
    ensures url.Some? <==> CheckLoginStatus(storage)
    ensures url.Some? ==> url.value == API_BASE_URL + "/resources?userId=" + JsString(storage.value.userId)
  {
    match storage
    case None => None
    case Some(user) => Some(API_BASE_URL + "/resources?userId=" + JsString(user.userId))
  }

  /** What the grid shows. */
  datatype View = EmptyState | Cards(resources: seq<Resource>) | LoadError | Unchanged

  /** `displayResources`: an empty list clears the grid and shows the empty state. */
  function Display(resources: seq<Resource>): (v: View)
    ensures v == EmptyState <==> resources == []
    ensures v != EmptyState ==> v == Cards(resources)
  {
    if |resources| == 0 then EmptyState else Cards(resources)
  }

  /**
   * The answer to the list request: the decoded list, a non-2xx status, or
   * a thrown error (unreachable server, undecodable body).
   */
  datatype ListReply = Listed(resources: seq<Resource>) | Status(code: nat) | Unreachable

  /**
   * How `fetchResources` handles the answer: a list replaces the cached list
   * and is displayed; a 401 only re-runs the login check, which with a user
   * stored changes nothing; any other failure shows the load error and keeps
   * the cache.
   */
  function OnListReply(cached: seq<Resource>, reply: ListReply): (out: Handled<View, seq<Resource>>)
    requires reply.Status? ==> !(200 <= reply.code < 300)
    ensures reply.Listed? ==> out.state == reply.resources && out.response == Display(reply.resources)
    ensures !reply.Listed? ==> out.state == cached
    ensures reply.Status? && reply.code == UNAUTHORIZED ==> out.response == Unchanged
    ensures out.response == LoadError <==> reply.Unreachable? || (reply.Status? && reply.code != UNAUTHORIZED)
  {
    match reply
    case Listed(resources) => Handled(Display(resources), resources)
    case Status(code) => if code == UNAUTHORIZED then Handled(Unchanged, cached) else Handled(LoadError, cached)
    case Unreachable => Handled(LoadError, cached)
  }

  /** The resources whose category is strictly equal to `category`, in their original order. */
  function OfCategory(resources: seq<Resource>, category: Option<string>): (r: seq<Resource>)
    ensures |r| <= |resources|
    ensures forall i :: 0 <= i < |r| ==> r[i].category == category
  {
    if resources == [] then []
    else
      var rest := OfCategory(resources[1..], category);
      if resources[0].category == category then [resources[0]] + rest else rest
  }

  /**
   * `filterResources(category)`: the button's `data-category`, which may be
   * missing, selects every resource when it is "all" and otherwise exactly
   * those of that category.
   */
  function FilterResources(resources: seq<Resource>, category: Option<string>): (r: seq<Resource>)
    ensures category == Some(ALL) ==> r == resources
    ensures category != Some(ALL) ==> r == OfCategory(resources, category)
  {
    if category == Some(ALL) then resources else OfCategory(resources, category)
  }

  /** The filter keeps each resource as often as the list holds it when its category matches, and never otherwise. */
  lemma {:induction false} OfCategoryCounts(resources: seq<Resource>, category: Option<string>, x: Resource)
    ensures multiset(OfCategory(resources, category))[x] ==
            if x.category == category then multiset(resources)[x] else 0
  {
    if resources != [] {
      OfCategoryCounts(resources[1..], category, x);
      assert resources == [resources[0]] + resources[1..];
    }
  }

  /** Filtering a concatenation filters each part in place, so the original order is kept. */
  lemma {:induction false} OfCategoryAppend(a: seq<Resource>, b: seq<Resource>, category: Option<string>)
    ensures OfCategory(a + b, category) == OfCategory(a, category) + OfCategory(b, category)
  {
    if a == [] {
      assert a + b == b;
    } else {
      SplitAppend(a, b);
      OfCategoryAppend(a[1..], b, category);
      var head := if a[0].category == category then [a[0]] else [];
      assert OfCategory(a + b, category) == head + OfCategory(a[1..] + b, category);
      assert OfCategory(a, category) == head + OfCategory(a[1..], category);
    }
  }

  /** Choosing the same button twice shows the same list as choosing it once. */
  lemma {:induction false} FilterIdempotent(resources: seq<Resource>, category: Option<string>)
    ensures FilterResources(FilterResources(resources, category), category) == FilterResources(resources, category)
  {
    if category != Some(ALL) {
      OfCategoryFixed(resources, category);
    }
  }

  /** A list already of one category is left as it is by that category's filter. */
  lemma {:induction false} OfCategoryFixed(resources: seq<Resource>, category: Option<string>)
    ensures OfCategory(OfCategory(resources, category), category) == OfCategory(resources, category)
  {
    if resources != [] {
      OfCategoryFixed(resources[1..], category);
    }
  }

  /** After filtering, the grid shows the empty state iff no resource has the category ("all" excepted). */
  lemma FilteredEmptyState(resources: seq<Resource>, category: Option<string>)
    requires category != Some(ALL)
    ensures Display(FilterResources(resources, category)) == EmptyState <==>
            forall i :: 0 <= i < |resources| ==> resources[i].category != category
  {
    var r := FilterResources(resources, category);
    if r == [] {
      forall i | 0 <= i < |resources| ensures resources[i].category != category {
        OfCategoryCounts(resources, category, resources[i]);
        assert resources[i] in multiset(resources);
      }
    } else {
      OfCategoryCounts(resources, category, r[0]);
      assert r[0] in multiset(r);
      assert r[0] in resources;
    }
  }

  /**
   * Logging out closes every page's gate: the create-room and join-room
   * forms are no longer offered, this page hides itself and requests no
   * list. Merely not being logged in does not: a stored user without a
   * name still opens all three.
   */
  lemma LogoutLocksPages(storage: LoginPage.Storage)
    ensures !CreateRoomPage.FormOffered(LoginPage.Logout(storage))
    ensures !JoinRoomPage.FormOffered(LoginPage.Logout(storage))
    ensures !CheckLoginStatus(LoginPage.Logout(storage))
    ensures ResourcesRequest(LoginPage.Logout(storage)).None?
    ensures var nameless := Some(LoginPage.StoredUser(None, None, None));
      && !LoginPage.IsLoggedIn(nameless)
      && CreateRoomPage.FormOffered(nameless) && JoinRoomPage.FormOffered(nameless) && CheckLoginStatus(nameless)
  {
  }

  /** After a list arrives, choosing "all" shows exactly what arrived. */
  lemma ListedThenAll(cached: seq<Resource>, resources: seq<Resource>)
    ensures var out := OnListReply(cached, Listed(resources));
      && Display(FilterResources(out.state, Some(ALL))) == out.response
      && (resources != [] ==> out.response == Cards(resources))
  {
  }

  /**
   * After a successful login the page requests the list for the id the
   * server returned; after a failed one it requests what it requested
   * before.
   */
  lemma LoginThenRequest(storage: LoginPage.Storage, reply: LoginPage.Reply)
    ensures var stored := LoginPage.OnLoginReply(storage, reply).state;
      && (reply.Answered? && reply.body.success ==>
            ResourcesRequest(stored) == Some(API_BASE_URL + "/resources?userId=" + JsString(reply.body.userId)))
      && (!(reply.Answered? && reply.body.success) ==> ResourcesRequest(stored) == ResourcesRequest(storage))
  {
  }
}
