/**
 * components/WaitlistTable.tsx: the selection of recipients (toggling one
 * user, selecting or clearing all, the header checkbox and the per-row
 * highlight) and the loading of the list (the search endpoint, the shapes
 * of the reply it accepts, and the state it leaves behind).
 */
module WaitlistTable {
  import opened Wrappers
  import opened Text

  /** A row of the waitlist as the backend returns it. */
  datatype WaitlistUser = WaitlistUser(id: int, email: string, createdAt: string, updatedAt: string)

  /** `selectedUsers.some((u) => u.id === id)`: whether some selected entry carries `id`. */
  predicate HasId(selected: seq<WaitlistUser>, id: int) {
    exists k :: 0 <= k < |selected| && selected[k].id == id
  }

  /** `selectedUsers.filter((u) => u.id !== id)`. */
  function WithoutId(selected: seq<WaitlistUser>, id: int): seq<WaitlistUser> {
    if selected == [] then []
    else (if selected[0].id == id then [] else [selected[0]]) + WithoutId(selected[1..], id)
  }

  /** Filtering distributes over concatenation: the kept entries stay in their order. */
  lemma {:induction false} WithoutIdAppend(a: seq<WaitlistUser>, b: seq<WaitlistUser>, id: int)
    ensures WithoutId(a + b, id) == WithoutId(a, id) + WithoutId(b, id)
  {
    if a != [] {
      assert (a + b)[1..] == a[1..] + b;
      WithoutIdAppend(a[1..], b, id);
    } else {
      assert a + b == b;
    }
  }

  /** An entry survives the filter exactly when it was there and carries another id. */
  lemma {:induction false} WithoutIdMembers(selected: seq<WaitlistUser>, id: int)
    ensures forall u :: u in WithoutId(selected, id) <==> u in selected && u.id != id
  {
    if selected != [] {
      WithoutIdMembers(selected[1..], id);
      assert selected == [selected[0]] + selected[1..];
    }
  }

  /** Every entry with another id is kept as many times as it occurs; none with the id is kept. */
  lemma {:induction false} WithoutIdCounts(selected: seq<WaitlistUser>, id: int, u: WaitlistUser)
    ensures multiset(WithoutId(selected, id))[u] == if u.id == id then 0 else multiset(selected)[u]
  {
    if selected != [] {
      WithoutIdCounts(selected[1..], id, u);
      assert selected == [selected[0]] + selected[1..];
    }
  }

  /** Filtering an id that no entry carries changes nothing. */
  lemma {:induction false} WithoutAbsentId(selected: seq<WaitlistUser>, id: int)
    requires !HasId(selected, id)
    ensures WithoutId(selected, id) == selected
  {
    if selected != [] {
      assert selected[0].id != id;
      assert !HasId(selected[1..], id) by {
        forall k | 0 <= k < |selected[1..]| ensures selected[1..][k].id != id {
          assert selected[1..][k] == selected[k + 1];
        }
      }
      WithoutAbsentId(selected[1..], id);
    }
  }

  /** HasId agrees with membership of some entry carrying the id. */
  lemma HasIdIffMember(selected: seq<WaitlistUser>, id: int)
    ensures HasId(selected, id) <==> exists u :: u in selected && u.id == id
  {
    if HasId(selected, id) {
      var k :| 0 <= k < |selected| && selected[k].id == id;
      assert selected[k] in selected;
    }
  }

  /**
   * `handleUserToggle(user)`: the new selection handed to the parent. A user
   * whose id is not selected is appended at the end; otherwise every entry
   * with that id is dropped.
   */
  function Toggle(selected: seq<WaitlistUser>, user: WaitlistUser): seq<WaitlistUser> {
    if HasId(selected, user.id) then WithoutId(selected, user.id) else selected + [user]
  }

  /**
   * Toggling flips whether the user's id is selected and leaves the
   * selection state of every other id as it was.
   */
  lemma ToggleFlipsOnlyThatId(selected: seq<WaitlistUser>, user: WaitlistUser, id: int)
    ensures HasId(Toggle(selected, user), user.id) <==> !HasId(selected, user.id)
    ensures id != user.id ==> (HasId(Toggle(selected, user), id) <==> HasId(selected, id))
  {
    var r := Toggle(selected, user);
    HasIdIffMember(selected, user.id);
    HasIdIffMember(selected, id);
    HasIdIffMember(r, user.id);
    HasIdIffMember(r, id);
    if HasId(selected, user.id) {
      WithoutIdMembers(selected, user.id);
    } else {
      assert r[|selected|] == user;
      forall u | u in r ensures u in selected || u == user {
        var k :| 0 <= k < |r| && r[k] == u;
        if k < |selected| { assert r[k] == selected[k]; }
      }
      forall u | u in selected ensures u in r {
        var k :| 0 <= k < |selected| && selected[k] == u;
        assert r[k] == u;
      }
    }
  }

  /** Toggling an unselected user appends exactly that user, keeping the rest in order. */
  lemma ToggleSelects(selected: seq<WaitlistUser>, user: WaitlistUser)
    requires !HasId(selected, user.id)
    ensures Toggle(selected, user) == selected + [user]
  {
  }

  /** Toggling a selected user's id keeps the other entries, each as often as before, and only them. */
  lemma ToggleDeselects(selected: seq<WaitlistUser>, user: WaitlistUser)
    requires HasId(selected, user.id)
    ensures var r := Toggle(selected, user);
      && !HasId(r, user.id)
      && (forall u :: u in r <==> u in selected && u.id != user.id)
      && (forall u: WaitlistUser :: u.id != user.id ==> multiset(r)[u] == multiset(selected)[u])
  {
    ToggleFlipsOnlyThatId(selected, user, user.id);
    WithoutIdMembers(selected, user.id);
    forall u: WaitlistUser | u.id != user.id ensures multiset(Toggle(selected, user))[u] == multiset(selected)[u] {
      WithoutIdCounts(selected, user.id, u);
    }
  }

  /** Toggling the same unselected user twice restores the selection. */
  lemma ToggleTwiceRestores(selected: seq<WaitlistUser>, user: WaitlistUser)
    requires !HasId(selected, user.id)
    ensures Toggle(Toggle(selected, user), user) == selected
  {
    var once := selected + [user];
    assert once[|selected|].id == user.id;
    WithoutIdAppend(selected, [user], user.id);
    WithoutAbsentId(selected, user.id);
    assert WithoutId([user], user.id) == [];
  }

  /**
   * Toggling a selected user twice does not restore the selection when that
   * user was not last: it comes back at the end. Witness: [a, b] toggled on
   * `a` twice is [b, a].
   */
  lemma ToggleTwiceMovesToEnd()
    ensures var a, b := WaitlistUser(1, "a@x.com", "", ""), WaitlistUser(2, "b@x.com", "", "");
      Toggle(Toggle([a, b], a), a) == [b, a]
  {
    var a, b := WaitlistUser(1, "a@x.com", "", ""), WaitlistUser(2, "b@x.com", "", "");
    assert HasId([a, b], a.id) by { assert [a, b][0].id == a.id; }
    assert [a, b][1..] == [b];
    assert [b][1..] == [];
    assert WithoutId([b], a.id) == [b];
    assert Toggle([a, b], a) == [b];
    assert !HasId([b], a.id);
  }

  /** `handleSelectAll`: clear when the lengths agree, otherwise select a copy of the list. */
  function SelectAll(selected: seq<WaitlistUser>, users: seq<WaitlistUser>): seq<WaitlistUser> {
    if |selected| == |users| then [] else users
  }

  /** The header checkbox: checked when the lengths agree and the list is not empty. */
  predicate HeaderChecked(selected: seq<WaitlistUser>, users: seq<WaitlistUser>) {
    |selected| == |users| && |users| > 0
  }

  /** The per-row highlight and checkbox of `user`. */
  predicate RowSelected(selected: seq<WaitlistUser>, user: WaitlistUser) {
    HasId(selected, user.id)
  }

  /**
   * The header checkbox and select-all agree: clicking a checked header
   * clears the selection and unchecks it; clicking an unchecked header over
   * a non-empty list selects every row and checks it.
   */
  lemma SelectAllFollowsHeader(selected: seq<WaitlistUser>, users: seq<WaitlistUser>)
    ensures HeaderChecked(selected, users) ==> SelectAll(selected, users) == [] && !HeaderChecked(SelectAll(selected, users), users)
    ensures !HeaderChecked(selected, users) && |users| > 0 ==>
      && SelectAll(selected, users) == users
      && HeaderChecked(SelectAll(selected, users), users)
      && (forall k :: 0 <= k < |users| ==> RowSelected(SelectAll(selected, users), users[k]))
  {
    if !HeaderChecked(selected, users) && |users| > 0 {
      forall k | 0 <= k < |users| ensures RowSelected(users, users[k]) {
        assert users[k].id == users[k].id;
      }
    }
  }

  /**
   * Select-all compares lengths, not members: a selection of another user,
   * of the same length as the list, is cleared and leaves the header checked
   * although no row is selected.
   */
  lemma SelectAllComparesLengthsOnly()
    ensures var a, b := WaitlistUser(1, "a@x.com", "", ""), WaitlistUser(2, "b@x.com", "", "");
      && HeaderChecked([b], [a]) && !RowSelected([b], a)
      && SelectAll([b], [a]) == []
  {
    var a, b := WaitlistUser(1, "a@x.com", "", ""), WaitlistUser(2, "b@x.com", "", "");
    assert [b][0].id != a.id;
  }

  const WaitlistPath := "/api/waitlist"
  const SearchQuery := "?search="

  /**
   * The endpoint `fetchUsers(search)` requests: the query is added only for
   * a search term that is not blank, and carries the trimmed term through
   * `encode` (JavaScript's `encodeURIComponent`, a parameter of the model).
   */
  function SearchEndpoint(search: string, encode: string -> string): string {
    WaitlistPath + (if Trim(search) != "" then SearchQuery + encode(Trim(search)) else "")
  }

  /** Reads the encoded search term back from an endpoint. */
  function SearchOf(endpoint: string): Option<string> {
    var prefix := WaitlistPath + SearchQuery;
    if |prefix| <= |endpoint| && endpoint[..|prefix|] == prefix then Some(endpoint[|prefix|..]) else None
  }

  /**
   * The endpoint carries the search exactly when the trimmed term is not
   * blank, and then carries the encoded trimmed term; a blank term (empty or
   * whitespace only) requests the whole list.
   */
  lemma SearchRoundTrip(search: string, encode: string -> string)
    ensures Trim(search) != "" ==> SearchOf(SearchEndpoint(search, encode)) == Some(encode(Trim(search)))
    ensures Trim(search) == "" <==> SearchEndpoint(search, encode) == WaitlistPath
    ensures AllSpace(search) ==> SearchEndpoint(search, encode) == WaitlistPath
  {
    var prefix := WaitlistPath + SearchQuery;
    if Trim(search) != "" {
      var e := SearchEndpoint(search, encode);
      assert e == prefix + encode(Trim(search));
      assert e[..|prefix|] == prefix;
      assert |e| > |WaitlistPath|;
    }
    TrimEmptyIffAllSpace(search);
  }

  /** Searching for an already trimmed term requests the same endpoint. */
  lemma SearchIgnoresPadding(search: string, encode: string -> string)
    ensures SearchEndpoint(Trim(search), encode) == SearchEndpoint(search, encode)
  {
    TrimIdempotent(search);
  }

  /** `data.data` as far as the table reads it. */
  datatype NestedData = NestedData(users: Option<seq<WaitlistUser>>)

  /** The parsed reply body as far as the table reads it; an absent property is `None`. */
  datatype ReplyBody = ReplyBody(users: Option<seq<WaitlistUser>>, data: Option<NestedData>)

  /** How the request settles: an HTTP reply with its status class and body, or a thrown error. */
  datatype FetchReply = Reply(ok: bool, body: ReplyBody) | FetchError

  /**
   * The users taken from a successful reply: `data.users` when present (an
   * array, even an empty one, is truthy), else `data.data.users`, else none.
   */
  function ExtractUsers(body: ReplyBody): seq<WaitlistUser> {
    if body.users.Some? then body.users.value
    else if body.data.Some? && body.data.value.users.Some? then body.data.value.users.value
    else []
  }

  /** The list shown after a fetch that settled with `reply`. */
  function LoadedUsers(reply: FetchReply): seq<WaitlistUser> {
    match reply
    case Reply(true, body) => ExtractUsers(body)
    case _ => []
  }

  /**
   * Which shapes are accepted: a top-level list wins over a nested one,
   * a nested list is used when there is no top-level one, and a failed
   * reply shows no users whatever its body.
   */
  lemma ReplyShapes(body: ReplyBody, top: seq<WaitlistUser>, nested: Option<seq<WaitlistUser>>)
    ensures LoadedUsers(Reply(true, body.(users := Some(top)))) == top
    ensures nested.Some? ==> LoadedUsers(Reply(true, ReplyBody(None, Some(NestedData(nested))))) == nested.value
    ensures LoadedUsers(Reply(true, ReplyBody(None, None))) == []
    ensures LoadedUsers(Reply(false, body)) == [] && LoadedUsers(FetchError) == []
  {
  }

  /** The table's own state: the loaded list, the shown total and the loading flag. */
  class WaitlistView {
    var users: seq<WaitlistUser>
    var total: nat
    var loading: bool

    /** The shown total is always the length of the loaded list. */
    predicate Valid()
      reads this
    {
      total == |users|
    }

    /** The initial state: nothing loaded, loading. */
    constructor ()
      ensures Valid() && users == [] && total == 0 && loading
    {
      users := [];
      total := 0;
      loading := true;
    }

    /**
     * `fetchUsers(search)`: request the endpoint for `search` from `server`,
     * then show the users of the reply, or none when it failed, with their
     * count as the total, and stop loading.
     */
    method FetchUsers(search: string, encode: string -> string, server: string -> FetchReply) returns (endpoint: string)
      modifies this
      ensures endpoint == SearchEndpoint(search, encode)
      ensures users == LoadedUsers(server(endpoint))
      ensures Valid() && !loading
    {
      loading := true;
      endpoint := WaitlistPath;
      if search != "" && Trim(search) != "" {
        endpoint := endpoint + SearchQuery + encode(Trim(search));
      }
      var reply := server(endpoint);
      match reply {
        case Reply(ok, body) =>
          if ok {
            var loaded: seq<WaitlistUser> := [];
            if body.users.Some? {
              loaded := body.users.value;
            } else if body.data.Some? && body.data.value.users.Some? {
              loaded := body.data.value.users.value;
            }
            users := loaded;
            total := |loaded|;
          } else {
            users := [];
            total := 0;
          }
        case FetchError =>
          users := [];
          total := 0;
      }
      loading := false;
    }
  }
}
