/** The in-memory user registry (the module-level `users` dict) and the
    handlers that read and change it. A Python dict lists its values in
    insertion order, so the registry is kept as the map from id to record
    together with the sequence of its keys in the order they were inserted. */
module Registry {
  import opened Wrappers
  import opened Guard
  import opened Users

  /** The body of a create request: its `id` and `openaiKey` fields. */
  datatype CreateBody = CreateBody(id: Option<string>, openaiKey: Option<string>)

  /** The response of the stats endpoint. */
  datatype StatsView = StatsView(daysLived: string, weekday: string)

  // ---------------------------------------------------------------------
  // Insertion order
  // ---------------------------------------------------------------------

  predicate Distinct(s: seq<string>) {
    forall i, j | 0 <= i < j < |s| :: s[i] != s[j]
  }

  lemma DistinctCons(a: string, t: seq<string>)
    requires a !in t && Distinct(t)
    ensures Distinct([a] + t)
  {
    var s := [a] + t;
    forall i, j | 0 <= i < j < |s| ensures s[i] != s[j] {
      assert s[j] == t[j - 1];
      if i > 0 {
        assert s[i] == t[i - 1];
      }
    }
  }

  lemma DistinctSnoc(t: seq<string>, a: string)
    requires a !in t && Distinct(t)
    ensures Distinct(t + [a])
  {
    var s := t + [a];
    forall i, j | 0 <= i < j < |s| ensures s[i] != s[j] {
      assert s[i] == t[i];
      if j < |t| {
        assert s[j] == t[j];
      }
    }
  }

  /** The key order once `del` has removed `x`. */
  function Without(s: seq<string>, x: string): (r: seq<string>)
    ensures forall y :: y in r <==> y in s && y != x
    ensures |r| <= |s|
  {
    if s == [] then []
    else if s[0] == x then Without(s[1..], x)
    else [s[0]] + Without(s[1..], x)
  }

  lemma {:induction false} WithoutAbsent(s: seq<string>, x: string)
    requires x !in s
    ensures Without(s, x) == s
  {
    if s != [] {
      assert s[0] != x;
      WithoutAbsent(s[1..], x);
      assert [s[0]] + s[1..] == s;
    }
  }

  /** Removing a key that sits at position i of a duplicate-free order
      drops exactly that position and keeps the others in their order. */
  lemma {:induction false} WithoutAt(s: seq<string>, i: nat)
    requires Distinct(s) && i < |s|
    ensures Without(s, s[i]) == s[..i] + s[i + 1..]
  {
    if i == 0 {
      assert s[0] !in s[1..];
      WithoutAbsent(s[1..], s[0]);
    } else {
      var t := s[1..];
      assert Distinct(t);
      assert t[i - 1] == s[i] && s[0] != s[i];
      WithoutAt(t, i - 1);
      assert s[..i] + s[i + 1..] == [s[0]] + (t[..i - 1] + t[i..]);
    }
  }

  lemma {:induction false} WithoutDistinct(s: seq<string>, x: string)
    requires Distinct(s)
    ensures Distinct(Without(s, x))
  {
    if s != [] {
      var t := s[1..];
      assert Distinct(t);
      assert s[0] !in t;
      WithoutDistinct(t, x);
      if s[0] != x {
        DistinctCons(s[0], Without(t, x));
      }
    }
  }

  // ---------------------------------------------------------------------
  // Registry invariant
  // ---------------------------------------------------------------------

  /** What every registry the handlers can reach satisfies: the order lists
      each stored id once, every record is stored under its own id, and its
      locale is "US" or "INTL". */
  ghost predicate Consistent(order: seq<string>, users: map<string, User>) {
    && Distinct(order)
    && (forall k :: k in order <==> k in users)
    && (forall k | k in users :: users[k].id == k && IsLocale(users[k].locale))
  }

  /** No handler ever writes daysLived, weekday or lastUpdated. */
  ghost predicate StubsUnset(users: map<string, User>) {
    forall k | k in users ::
      users[k].daysLived == None && users[k].weekday == None && users[k].lastUpdated == None
  }

  // ---------------------------------------------------------------------
  // list_users
  // ---------------------------------------------------------------------

  /** The public views of the records, in key order. */
  function Projections(order: seq<string>, users: map<string, User>): (r: seq<PublicUser>)
    requires forall k | k in order :: k in users
    ensures |r| == |order|
    ensures forall i | 0 <= i < |order| :: r[i] == Public(users[order[i]])
  {
    if order == [] then []
    else [Public(users[order[0]])] + Projections(order[1..], users)
  }

  /** In a consistent registry the list holds one public view per stored
      record: every view is a stored record's, every stored id appears, and
      no id appears twice. */
  lemma ProjectionsCover(order: seq<string>, users: map<string, User>)
    requires Consistent(order, users)
    ensures var r := Projections(order, users);
      && (forall i | 0 <= i < |r| :: r[i].id in users && r[i] == Public(users[r[i].id]))
      && (forall id | id in users :: exists i | 0 <= i < |r| :: r[i].id == id)
      && (forall i, j | 0 <= i < j < |r| :: r[i].id != r[j].id)
  {
    var r := Projections(order, users);
    forall i | 0 <= i < |r| ensures r[i].id == order[i] {
    }
    forall id | id in users ensures exists i | 0 <= i < |r| :: r[i].id == id {
      var i :| 0 <= i < |order| && order[i] == id;
      assert r[i].id == id;
    }
  }

  /** `list_users`: the guard, then the public views in key order, which
      `ProjectionsCover` shows is one view per stored record. */
  function ListUsers(adminCode: Option<string>, header: Option<string>,
                     order: seq<string>, users: map<string, User>): (r: Result<seq<PublicUser>>)
    requires Consistent(order, users)
    ensures r.Err? <==> !Allowed(adminCode, header)
    ensures r.Err? ==> r.error == Forbidden
    ensures r.Ok? ==> r.value == Projections(order, users)
  {
    match RequireAdmin(adminCode, header)
    case Err(e) => Err(e)
    case Ok(_) => Ok(Projections(order, users))
  }

  /** A refused list request does not depend on the registry at all. */
  lemma ForbiddenListIgnoresRegistry(adminCode: Option<string>, header: Option<string>,
                                     order: seq<string>, users: map<string, User>,
                                     order': seq<string>, users': map<string, User>)
    requires Consistent(order, users) && Consistent(order', users')
    requires !Allowed(adminCode, header)
    ensures ListUsers(adminCode, header, order, users) == ListUsers(adminCode, header, order', users')
  {
  }

  /** A create appends the new record's view at the end of the list. */
  lemma {:induction false} ProjectionsAppend(order: seq<string>, users: map<string, User>, id: string, u: User)
    requires forall k | k in order :: k in users
    requires id !in order
    ensures Projections(order + [id], users[id := u]) == Projections(order, users) + [Public(u)]
  {
    var s := order + [id];
    var l := Projections(s, users[id := u]);
    var r := Projections(order, users) + [Public(u)];
    forall i | 0 <= i < |s| ensures l[i] == r[i] {
      if i < |order| {
        assert s[i] == order[i] && order[i] != id;
      }
    }
  }

  /** The list depends only on the records stored under the listed keys. */
  lemma ProjectionsAgree(order: seq<string>, users: map<string, User>, users': map<string, User>)
    requires forall k | k in order :: k in users && k in users' && users[k] == users'[k]
    ensures Projections(order, users) == Projections(order, users')
  {
    var l, r := Projections(order, users), Projections(order, users');
    forall j | 0 <= j < |order| ensures l[j] == r[j] {
      assert order[j] in order;
    }
  }

  /** Listing a slice of the order gives the same slice of the list. */
  lemma ProjectionsSlice(order: seq<string>, users: map<string, User>, lo: nat, hi: nat)
    requires forall k | k in order :: k in users
    requires lo <= hi <= |order|
    ensures forall k | k in order[lo..hi] :: k in users
    ensures Projections(order[lo..hi], users) == Projections(order, users)[lo..hi]
  {
    var s := order[lo..hi];
    forall k | k in s ensures k in users {
      var j :| 0 <= j < |s| && s[j] == k;
      assert s[j] == order[lo + j];
    }
    var l, r := Projections(s, users), Projections(order, users)[lo..hi];
    forall j | 0 <= j < |s| ensures l[j] == r[j] {
      assert s[j] == order[lo + j];
    }
  }

  /** Listing two orders one after the other concatenates their lists. */
  lemma ProjectionsConcat(a: seq<string>, b: seq<string>, users: map<string, User>)
    requires forall k | k in a :: k in users
    requires forall k | k in b :: k in users
    ensures forall k | k in a + b :: k in users
    ensures Projections(a + b, users) == Projections(a, users) + Projections(b, users)
  {
    var l, r := Projections(a + b, users), Projections(a, users) + Projections(b, users);
    forall j | 0 <= j < |a| + |b| ensures l[j] == r[j] {
      if j < |a| {
        assert (a + b)[j] == a[j];
      } else {
        assert (a + b)[j] == b[j - |a|];
      }
    }
  }

  /** Listing the order with position i cut out cuts entry i out of the list. */
  lemma ProjectionsSplice(order: seq<string>, users: map<string, User>, i: nat)
    requires forall k | k in order :: k in users
    requires i < |order|
    ensures forall k | k in order[..i] + order[i + 1..] :: k in users
    ensures var p := Projections(order, users);
      Projections(order[..i] + order[i + 1..], users) == p[..i] + p[i + 1..]
  {
    ProjectionsSlice(order, users, 0, i);
    ProjectionsSlice(order, users, i + 1, |order|);
    assert order[..i] == order[0..i] && order[i + 1..] == order[i + 1..|order|];
    ProjectionsConcat(order[..i], order[i + 1..], users);
  }

  /** A delete drops exactly the deleted record's view from the list. */
  lemma ProjectionsRemove(order: seq<string>, users: map<string, User>, i: nat)
    requires forall k | k in order :: k in users
    requires Distinct(order) && i < |order|
    ensures var p := Projections(order, users);
      Projections(Without(order, order[i]), users - {order[i]}) == p[..i] + p[i + 1..]
  {
    var id := order[i];
    WithoutAt(order, i);
    var s := Without(order, id);
    forall k | k in s ensures k in users && k in users - {id} && users[k] == (users - {id})[k] {
    }
    ProjectionsAgree(s, users - {id}, users);
    ProjectionsSplice(order, users, i);
  }

  /** An update replaces the updated record's view in place. */
  lemma ProjectionsReplace(order: seq<string>, users: map<string, User>, i: nat, u: User)
    requires forall k | k in order :: k in users
    requires Distinct(order) && i < |order|
    ensures Projections(order, users[order[i] := u]) == Projections(order, users)[i := Public(u)]
  {
    var l := Projections(order, users[order[i] := u]);
    var r := Projections(order, users)[i := Public(u)];
    forall j | 0 <= j < |order| ensures l[j] == r[j] {
      if j != i {
        assert order[j] != order[i];
      }
    }
  }

  // ---------------------------------------------------------------------
  // user_stats
  // ---------------------------------------------------------------------

  /** `user_stats`: never fails and needs no admin code. */
  function Stats(users: map<string, User>, id: string): (s: StatsView)
    ensures id !in users ==> s == StatsView("0", "")
    ensures s.daysLived != ""
    ensures s.daysLived == "0" || (id in users && users[id].daysLived == Some(s.daysLived))
    ensures s.weekday == "" || (id in users && users[id].weekday == Some(s.weekday))
    ensures id in users && Truthy(users[id].daysLived) ==> s.daysLived == users[id].daysLived.value
    ensures id in users && Truthy(users[id].weekday) ==> s.weekday == users[id].weekday.value
  {
    // a stored record is a non-empty dict, so only a missing id is falsy
    if id !in users then StatsView("0", "")
    else StatsView(OrElse(users[id].daysLived, "0"), OrElse(users[id].weekday, ""))
  }

  /** Since nothing writes daysLived or weekday, every reachable registry
      answers the stats endpoint with the defaults. */
  lemma StatsAreDefaults(users: map<string, User>, id: string)
    requires StubsUnset(users)
    ensures Stats(users, id) == StatsView("0", "")
  {
  }

  // ---------------------------------------------------------------------
  // The registry object and its state-changing handlers
  // ---------------------------------------------------------------------

  class UserRegistry {
    /** ADMIN_CODE as read from the environment at start-up. */
    const adminCode: Option<string>
    var order: seq<string>
    var users: map<string, User>

    ghost predicate Valid()
      reads this
    {
      Consistent(order, users) && StubsUnset(users)
    }

    /** The process starts with an empty registry. */
    constructor (adminCode: Option<string>)
      ensures Valid() && this.adminCode == adminCode
      ensures order == [] && users == map[]
    {
      this.adminCode := adminCode;
      order := [];
      users := map[];
    }

    /** `create_user`: guard, then the required fields, then the duplicate
        check, then the insert. */
    method Create(header: Option<string>, body: CreateBody) returns (r: Result<PublicUser>)
      requires Valid()
      modifies this
      ensures Valid()
      ensures !Allowed(adminCode, header) ==> r == Err(Forbidden) && unchanged(this)
      ensures Allowed(adminCode, header) && !(Truthy(body.id) && Truthy(body.openaiKey)) ==>
        r == Err(BadRequest) && unchanged(this)
      ensures Allowed(adminCode, header) && Truthy(body.id) && Truthy(body.openaiKey)
              && body.id.value in old(users) ==>
        r == Err(BadRequest) && unchanged(this)
      ensures Allowed(adminCode, header) && Truthy(body.id) && Truthy(body.openaiKey)
              && body.id.value !in old(users) ==>
        && users == old(users)[body.id.value := NewUser(body.id.value, body.openaiKey.value)]
        && order == old(order) + [body.id.value]
        && r == Ok(PublicUser(body.id.value, "US", None, None, None))
    {
      var gate := RequireAdmin(adminCode, header);
      if gate.Err? {
        return Err(gate.error);
      }
      if !Truthy(body.id) || !Truthy(body.openaiKey) {
        return Err(BadRequest);
      }
      var id, key := body.id.value, body.openaiKey.value;
      if id in users {
        return Err(BadRequest);
      }
      DistinctSnoc(order, id);
      users := users[id := NewUser(id, key)];
      order := order + [id];
      r := Ok(Public(users[id]));
    }

    /** `delete_user`: guard, then not-found, then `del`. */
    method Delete(header: Option<string>, id: string) returns (r: Result<()>)
      requires Valid()
      modifies this
      ensures Valid()
      ensures !Allowed(adminCode, header) ==> r == Err(Forbidden) && unchanged(this)
      ensures Allowed(adminCode, header) && id !in old(users) ==>
        r == Err(NotFound) && unchanged(this)
      ensures Allowed(adminCode, header) && id in old(users) ==>
        && users == old(users) - {id}
        && order == Without(old(order), id)
        && r == Ok(())
    {
      var gate := RequireAdmin(adminCode, header);
      if gate.Err? {
        return Err(gate.error);
      }
      if id !in users {
        return Err(NotFound);
      }
      WithoutDistinct(order, id);
      users := users - {id};
      order := Without(order, id);
      r := Ok(());
    }

    /** `admin_update`: guard, then not-found (before the body is looked
        at), then the patch. */
    method AdminUpdate(header: Option<string>, id: string, body: UpdateBody) returns (r: Result<PublicUser>)
      requires Valid()
      modifies this
      ensures Valid()
      ensures !Allowed(adminCode, header) ==> r == Err(Forbidden) && unchanged(this)
      ensures Allowed(adminCode, header) && id !in old(users) ==>
        r == Err(NotFound) && unchanged(this)
      ensures Allowed(adminCode, header) && id in old(users) ==>
        && users == old(users)[id := Patched(old(users)[id], body)]
        && order == old(order)
        && r == Ok(Public(users[id]))
    {
      var gate := RequireAdmin(adminCode, header);
      if gate.Err? {
        return Err(gate.error);
      }
      if id !in users {
        return Err(NotFound);
      }
      users := users[id := Patched(users[id], body)];
      r := Ok(Public(users[id]));
    }
  }

  // ---------------------------------------------------------------------
  // What a caller of the handlers can rely on
  // ---------------------------------------------------------------------

  /** Creating an id twice: the second create is refused and the stored
      record keeps the first key. */
  method CreateTwiceKeepsFirst(adminCode: Option<string>, header: Option<string>,
                               id: string, key1: string, key2: string)
    returns (first: Result<PublicUser>, second: Result<PublicUser>, stored: User)
    requires Allowed(adminCode, header)
    requires id != "" && key1 != ""
    ensures first == Ok(PublicUser(id, "US", None, None, None))
    ensures second == Err(BadRequest)
    ensures stored == NewUser(id, key1)
  {
    var reg := new UserRegistry(adminCode);
    first := reg.Create(header, CreateBody(Some(id), Some(key1)));
    second := reg.Create(header, CreateBody(Some(id), Some(key2)));
    stored := reg.users[id];
  }

  /** A created record is listed, without its key; once deleted it is not. */
  method CreateListDeleteList(adminCode: Option<string>, header: Option<string>, id: string, key: string)
    returns (created: Result<seq<PublicUser>>, deleted: Result<seq<PublicUser>>)
    requires Allowed(adminCode, header)
    requires id != "" && key != ""
    ensures created == Ok([PublicUser(id, "US", None, None, None)])
    ensures deleted == Ok([])
  {
    var reg := new UserRegistry(adminCode);
    var _ := reg.Create(header, CreateBody(Some(id), Some(key)));
    created := ListUsers(adminCode, header, reg.order, reg.users);
    assert reg.users == map[id := NewUser(id, key)];
    assert reg.order == [id] && |created.value| == 1;
    assert created.value[0].id in reg.users;
    assert created.value == [Public(NewUser(id, key))];
    var _ := reg.Delete(header, id);
    deleted := ListUsers(adminCode, header, reg.order, reg.users);
  }
}
