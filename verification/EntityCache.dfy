/** The generated user client with its read-through, write-through cache (orm/gen/client_gen.go),
    over a primary that serves all reads. Every contract says what a call returns and makes of the
    table in terms of the table alone: the cache is never seen. */
module EntityCache {
  import opened Results

  /** A row of the table; times are numbers, 0 the zero time, and the computed slug is the id. */
  datatype User = User(id: string, slug: string, createdAt: nat, updatedAt: nat)

  datatype ClientError = NilInput | ComputedSlug | IdRequired | Invalid | NoRows | DatabaseFailed | CacheFailed

  /** The entity a caller passes in; the client fills in its id and times. */
  class UserInput {
    var id: string
    var slug: string
    var createdAt: nat
    var updatedAt: nat

    constructor (id: string, slug: string, createdAt: nat)
      ensures this.id == id && this.slug == slug && this.createdAt == createdAt && updatedAt == 0
    {
      this.id, this.slug, this.createdAt, updatedAt := id, slug, createdAt, 0;
    }
  }

  type Rows = map<string, User>

  function MakeCacheKey(id: string): string { "orm:User:" + id }

  lemma KeysDiffer(a: string, b: string)
    requires MakeCacheKey(a) == MakeCacheKey(b)
    ensures MakeCacheKey(a) == "orm:User:" + a
    ensures a == b
  {
    assert MakeCacheKey(a)[9..] == a && MakeCacheKey(b)[9..] == b;
  }

  ghost predicate OwnIds(rows: Rows) {
    forall id :: id in rows ==> rows[id].id == id
  }

  /** Rows changed but for the named ones, whose entries have been set since. */
  lemma StillCoherent(rows: Rows, rows': Rows, cache: map<string, User>, changed: set<string>)
    requires CoherentExcept(rows, cache, {})
    requires forall id :: id in rows && id !in changed ==> id in rows' && rows'[id] == rows[id]
    ensures CoherentExcept(rows', cache, changed)
  {
  }

  /** Each cached user equals its current row, but for some ids. */
  ghost predicate CoherentExcept(rows: Rows, cache: map<string, User>, except: set<string>) {
    forall id {:trigger MakeCacheKey(id)} :: MakeCacheKey(id) in cache && id !in except ==>
      id in rows && cache[MakeCacheKey(id)] == rows[id]
  }

  lemma SetRepairs(rows: Rows, cache: map<string, User>, except: set<string>, id: string)
    requires CoherentExcept(rows, cache, except) && id in rows
    ensures CoherentExcept(rows, cache[MakeCacheKey(id) := rows[id]], except - {id})
  {
    forall other | MakeCacheKey(other) == MakeCacheKey(id) ensures other == id { KeysDiffer(other, id); }
  }

  lemma DeleteRepairs(rows: Rows, cache: map<string, User>, except: set<string>, id: string)
    requires CoherentExcept(rows, cache, except)
    ensures CoherentExcept(rows, cache - {MakeCacheKey(id)}, except - {id})
  {
    forall other | MakeCacheKey(other) == MakeCacheKey(id) ensures other == id { KeysDiffer(other, id); }
  }

  /** INSERT of several rows. */
  function Inserted(rows: Rows, users: seq<User>): Rows {
    if users == [] then rows else Inserted(rows, users[..|users| - 1])[users[|users| - 1].id := users[|users| - 1]]
  }

  ghost predicate Insertable(rows: Rows, users: seq<User>) {
    && (forall k :: 0 <= k < |users| ==> users[k].id !in rows)
    && (forall j, k :: 0 <= j < k < |users| ==> users[j].id != users[k].id)
  }

  function Ids(users: seq<User>): set<string> { set u | u in users :: u.id }

  lemma IdsMore(users: seq<User>, u: User)
    ensures Ids(users + [u]) == Ids(users) + {u.id}
  {
  }

  lemma {:induction false} InsertedKeys(rows: Rows, users: seq<User>)
    ensures Inserted(rows, users).Keys == rows.Keys + Ids(users)
  {
    if users != [] {
      var init, last := users[..|users| - 1], users[|users| - 1];
      InsertedKeys(rows, init);
      assert users == init + [last];
      IdsMore(init, last);
      hide Ids;
    }
  }

  lemma InsertableInit(rows: Rows, users: seq<User>)
    requires Insertable(rows, users) && users != []
    ensures Insertable(rows, users[..|users| - 1])
  {
  }

  lemma {:induction false} InsertedOld(rows: Rows, users: seq<User>, id: string)
    requires Insertable(rows, users) && id in rows
    ensures id in Inserted(rows, users) && Inserted(rows, users)[id] == rows[id]
  {
    if users != [] {
      InsertableInit(rows, users);
      InsertedOld(rows, users[..|users| - 1], id);
    }
  }

  lemma {:induction false} InsertedNew(rows: Rows, users: seq<User>, k: nat)
    requires Insertable(rows, users) && k < |users|
    ensures users[k].id in Inserted(rows, users) && Inserted(rows, users)[users[k].id] == users[k]
  {
    if k < |users| - 1 {
      InsertableInit(rows, users);
      InsertedNew(rows, users[..|users| - 1], k);
    }
  }

  lemma InsertedAt(rows: Rows, users: seq<User>)
    requires Insertable(rows, users)
    ensures Inserted(rows, users).Keys == rows.Keys + Ids(users)
    ensures forall id :: id in rows ==> Inserted(rows, users)[id] == rows[id]
    ensures forall k :: 0 <= k < |users| ==>
      users[k].id in Inserted(rows, users) && Inserted(rows, users)[users[k].id] == users[k]
  {
    InsertedKeys(rows, users);
    hide Insertable, Inserted, Ids;
    forall id | id in rows ensures Inserted(rows, users)[id] == rows[id] { InsertedOld(rows, users, id); }
    forall k | 0 <= k < |users|
      ensures users[k].id in Inserted(rows, users) && Inserted(rows, users)[users[k].id] == users[k]
    {
      InsertedNew(rows, users, k);
    }
  }

  /** A user as the client makes it of an id and a time, either of which may be missing, at a time
      in the range: a new user is as old as its last change. */
  ghost predicate IsNew(u: User, id: string, createdAt: nat, from: nat, to: nat) {
    && u.id != "" && (id != "" ==> u.id == id) && u.slug == u.id && from <= u.updatedAt <= to
    && (createdAt != 0 ==> u.createdAt == createdAt) && (createdAt == 0 ==> from <= u.createdAt <= u.updatedAt)
  }

  /** The users are added under new ids, each id once, and nothing else changes. */
  ghost predicate Adds(rows: Rows, rows': Rows, users: seq<User>) {
    && (forall k :: 0 <= k < |users| ==> users[k].id !in rows)
    && (forall j, k :: 0 <= j < k < |users| ==> users[j].id != users[k].id)
    && (forall id :: id in rows' <==> id in rows || exists k :: 0 <= k < |users| && users[k].id == id)
    && (forall id :: id in rows && id in rows' ==> rows'[id] == rows[id])
    && (forall k :: 0 <= k < |users| ==> users[k].id in rows' && rows'[users[k].id] == users[k])
  }

  lemma InsertedAdds(rows: Rows, users: seq<User>)
    requires Insertable(rows, users)
    ensures Adds(rows, Inserted(rows, users), users)
  {
    InsertedAt(rows, users);
    hide Inserted;
    assert forall id :: id in Ids(users) <==> exists k :: 0 <= k < |users| && users[k].id == id by {
      forall id | id in Ids(users) ensures exists k :: 0 <= k < |users| && users[k].id == id {
        var u :| u in users && u.id == id;
      }
    }
  }

  /** What a bulk update of `updated_at` may do: of several times for one id, the database picks
      any. */
  ghost predicate Updated(rows: Rows, rows': Rows, specs: seq<(string, nat)>) {
    && rows'.Keys == rows.Keys
    && forall id :: id in rows ==>
      if exists s :: s in specs && s.0 == id then
        exists s :: s in specs && s.0 == id && rows'[id] == rows[id].(updatedAt := s.1)
      else rows'[id] == rows[id]
  }

  /** Whether a statement, the validation or the id generator fails is up to them. */
  method Exec() returns (ok: bool) {
    ok := *;
  }

  method NewV7() returns (v: Option<string>)
    ensures v.Some? ==> v.value != ""
  {
    var s := "v7";
    var more: string :| true;
    s := s + more;
    var ok := Exec();
    return if ok then Some(s) else None;
  }

  class UserClient {
    var rows: Rows
    var cache: map<string, User>
    const caching: bool
    var clock: nat

    ghost predicate Valid()
      reads this
    {
      ValidExcept({})
    }

    /** Valid but for the entries of some ids. */
    ghost predicate ValidExcept(except: set<string>)
      reads this
    {
      OwnIds(rows) && CoherentExcept(rows, cache, except) && (!caching ==> cache == map[])
    }

    constructor (rows: Rows, caching: bool)
      requires OwnIds(rows)
      ensures Valid() && this.rows == rows && this.caching == caching
    {
      this.rows, cache, this.caching, clock := rows, map[], caching, 1;
    }

    /** The time of the call; the clock does not run backwards. */
    method Now() returns (now: nat)
      modifies this`clock
      ensures old(clock) <= now == clock && now > 0
    {
      now :| now >= clock && now > 0;
      clock := now;
    }

    /** Set on the store; without a cache it does nothing. */
    method Set(user: User, ghost except: set<string>)
      requires ValidExcept(except) && user.id in rows && rows[user.id] == user
      modifies this`cache
      ensures ValidExcept(except - {user.id})
      ensures cache == if caching then old(cache)[MakeCacheKey(user.id) := user] else old(cache)
    {
      SetRepairs(rows, cache, except, user.id);
      if caching {
        cache := cache[MakeCacheKey(user.id) := user];
      }
    }

    method Remove(id: string, ghost except: set<string>)
      requires ValidExcept(except)
      modifies this`cache
      ensures ValidExcept(except - {id})
      ensures cache == if caching then old(cache) - {MakeCacheKey(id)} else old(cache)
    {
      DeleteRepairs(rows, cache, except, id);
      if caching {
        cache := cache - {MakeCacheKey(id)};
      }
    }

    /** A store may forget entries at any time. */
    method Evict(key: string)
      requires Valid()
      modifies this`cache
      ensures Valid()
    {
      cache := cache - {key};
    }

    /** Fills in the id and the times of a new entity. */
    method Prepare(input: UserInput?) returns (r: Result<User, ClientError>)
      modifies this`clock, input
      ensures old(clock) <= clock
      ensures r.Ok? ==>
        && input != null && old(input.slug) == "" && old(clock) <= input.updatedAt == clock && clock > 0
        && r.value == User(input.id, input.id, input.createdAt, input.updatedAt)
        && (if old(input.id) != "" then input.id == old(input.id) else input.id != "")
        && (if old(input.createdAt) != 0 then input.createdAt == old(input.createdAt)
          else input.createdAt == input.updatedAt)
    {
      if input == null {
        return Err(NilInput);
      }
      if input.slug != "" {
        return Err(ComputedSlug);
      }
      var now := Now();
      if input.id == "" {
        var v := NewV7();
        if v.None? {
          return Err(Invalid);
        }
        input.id := v.value;
      }
      if input.createdAt == 0 {
        input.createdAt := now;
      }
      input.updatedAt := now;
      var valid := Exec();
      if !valid {
        return Err(Invalid);
      }
      return Ok(User(input.id, input.id, input.createdAt, input.updatedAt));
    }

    method Create(input: UserInput?) returns (r: Result<User, ClientError>)
      requires Valid()
      modifies this`rows, this`cache, this`clock, input
      ensures Valid()
      ensures r.Err? ==> rows == old(rows)
      ensures r.Ok? ==> input != null && r.value == User(input.id, input.id, input.createdAt, input.updatedAt)
      ensures r.Ok? ==>
        && r.value.id != "" && (old(input.id) != "" ==> r.value.id == old(input.id))
        && old(clock) <= r.value.updatedAt == clock
        && r.value.createdAt == if old(input.createdAt) != 0 then old(input.createdAt) else r.value.updatedAt
      ensures r.Ok? ==> r.value.id !in old(rows) && rows == old(rows)[r.value.id := r.value]
    {
      var prepared := Prepare(input);
      if prepared.Err? {
        return prepared;
      }
      var out := prepared.value;
      var inserted := Exec();
      if !inserted || out.id in rows {
        return Err(DatabaseFailed);
      }
      StillCoherent(rows, rows[out.id := out], cache, {out.id});
      rows := rows[out.id := out];
      Set(out, {out.id});
      assert {out.id} - {out.id} == {};
      return Ok(out);
    }

    method BulkCreate(inputs: seq<UserInput?>) returns (r: Result<seq<User>, ClientError>)
      requires Valid()
      modifies this`rows, this`cache, this`clock, set i | i in inputs && i != null
      ensures Valid()
      ensures r.Err? ==> rows == old(rows)
      ensures r.Ok? ==> |r.value| == |inputs| && forall k :: 0 <= k < |inputs| ==>
        && inputs[k] != null && r.value[k].id == inputs[k].id
        && IsNew(r.value[k], old(inputs[k].id), old(inputs[k].createdAt), old(clock), clock)
      ensures r.Ok? ==> Adds(old(rows), rows, r.value)
    {
      if |inputs| == 0 {
        return Ok([]);
      }
      hide IsNew, Insertable, Inserted, CoherentExcept, OwnIds, Adds;
      r := PrepareAll(inputs);
      if r.Err? {
        return;
      }
      var inserted := InsertMany(r.value);
      if !inserted {
        return Err(DatabaseFailed);
      }
      InsertedAdds(old(rows), r.value);
      SetAll(r.value, old(rows));
    }

    /** The first loop of a bulk creation. */
    method PrepareAll(inputs: seq<UserInput?>) returns (r: Result<seq<User>, ClientError>)
      modifies this`clock, set i | i in inputs && i != null
      ensures r.Ok? ==> |r.value| == |inputs| && forall k :: 0 <= k < |inputs| ==>
        && inputs[k] != null && r.value[k].id == inputs[k].id
        && IsNew(r.value[k], old(inputs[k].id), old(inputs[k].createdAt), old(clock), clock)
    {
      var users: seq<User> := [];
      for i := 0 to |inputs|
        invariant |users| == i && old(clock) <= clock
        invariant forall k :: 0 <= k < |inputs| && inputs[k] != null ==>
          && (old(inputs[k].id) != "" ==> inputs[k].id == old(inputs[k].id))
          && (old(inputs[k].createdAt) != 0 ==> inputs[k].createdAt == old(inputs[k].createdAt))
          && (old(inputs[k].createdAt) == 0 ==>
            inputs[k].createdAt == 0 || old(clock) <= inputs[k].createdAt <= clock)
        invariant forall k :: 0 <= k < i ==>
          && inputs[k] != null && users[k].id == inputs[k].id
          && IsNew(users[k], old(inputs[k].id), old(inputs[k].createdAt), old(clock), clock)
      {
        var prepared := Prepare(inputs[i]);
        if prepared.Err? {
          return Err(prepared.error);
        }
        users := users + [prepared.value];
      }
      return Ok(users);
    }

    /** Each inserted user is put into the cache. */
    method SetAll(users: seq<User>, ghost before: Rows)
      requires Insertable(before, users) && rows == Inserted(before, users) && ValidExcept(Ids(users))
      modifies this`cache
      ensures Valid()
    {
      ghost var except := Ids(users);
      hide Insertable, Inserted, CoherentExcept;
      for k := 0 to |users|
        invariant ValidExcept(except) && except <= Ids(users[k..]) && rows == old(rows)
      {
        assert users[k..] == [users[k]] + users[k + 1..];
        InsertedNew(before, users, k);
        Set(users[k], except);
        except := except - {users[k].id};
      }
      assert Ids(users[|users|..]) == {} && except == {};
    }

    /** The INSERT of several rows: all of them or none. */
    method InsertMany(users: seq<User>) returns (ok: bool)
      requires Valid()
      modifies this`rows
      ensures ok ==> Insertable(old(rows), users) && rows == Inserted(old(rows), users) && ValidExcept(Ids(users))
      ensures !ok ==> rows == old(rows)
    {
      ok := Exec();
      var seen: set<string> := {};
      for k := 0 to |users|
        invariant ok ==> Insertable(rows, users[..k]) && seen == Ids(users[..k])
      {
        assert users[..k + 1] == users[..k] + [users[k]];
        if users[k].id in rows || users[k].id in seen {
          ok := false;
        }
        assert ok ==> forall j :: 0 <= j < k ==> users[..k][j].id in Ids(users[..k]);
        seen := seen + {users[k].id};
      }
      assert users[..|users|] == users;
      if ok {
        InsertedAt(rows, users);
        rows := Inserted(rows, users);
        InsertedOwnIds(old(rows), users);
      }
    }

    /** Reads through the cache: exactly what the SELECT would return. */
    method ByID(id: string) returns (r: Result<Option<User>, ClientError>)
      requires Valid()
      modifies this`cache
      ensures Valid()
      ensures r.Ok? ==> r.value == if id in rows then Some(rows[id]) else None
      ensures r.Err? ==> cache == old(cache)
    {
      var got := Exec();
      if !got {
        return Err(CacheFailed);
      }
      if MakeCacheKey(id) in cache {
        return Ok(Some(cache[MakeCacheKey(id)]));
      }
      var read := Exec();
      if !read {
        return Err(DatabaseFailed);
      }
      if id !in rows {
        return Ok(None);
      }
      var out := rows[id];
      Set(out, {});
      assert {} - {out.id} == {};
      return Ok(Some(out));
    }

    method Update(input: UserInput?) returns (r: Result<User, ClientError>)
      requires Valid()
      modifies this`rows, this`cache, this`clock, input
      ensures Valid()
      ensures r.Err? ==> rows == old(rows)
      ensures r.Ok? ==> input != null && input.id == old(input.id) && input.id in old(rows)
      ensures r.Ok? ==> old(clock) <= input.updatedAt == clock
      ensures r.Ok? ==>
        r.value == old(rows)[input.id].(updatedAt := input.updatedAt) && rows == old(rows)[input.id := r.value]
      ensures r.Err? && r.error.NoRows? ==> input != null && input.id !in rows
    {
      if input == null {
        return Err(NilInput);
      }
      if input.id == "" {
        return Err(IdRequired);
      }
      var now := Now();
      input.updatedAt := now;
      var valid := Exec();
      if !valid {
        return Err(Invalid);
      }
      var done := Exec();
      if !done {
        return Err(DatabaseFailed);
      }
      if input.id !in rows {
        return Err(NoRows);
      }
      var out := rows[input.id].(updatedAt := input.updatedAt);
      StillCoherent(rows, rows[out.id := out], cache, {out.id});
      rows := rows[out.id := out];
      Set(out, {out.id});
      assert {out.id} - {out.id} == {};
      return Ok(out);
    }

    /** Of several inputs for one id the database uses any; the users returned are the new rows of
        the ids that exist, once each. */
    method BulkUpdate(inputs: seq<UserInput?>)
      returns (r: Result<seq<User>, ClientError>, ghost specs: seq<(string, nat)>)
      requires Valid()
      modifies this`rows, this`cache, this`clock, set i | i in inputs && i != null
      ensures Valid()
      ensures r.Err? ==> rows == old(rows)
      ensures r.Ok? ==> |specs| == |inputs| && forall k :: 0 <= k < |inputs| ==>
        inputs[k] != null && specs[k].0 == old(inputs[k].id) && old(clock) <= specs[k].1 <= clock
      ensures r.Ok? ==> Updated(old(rows), rows, specs)
      ensures r.Ok? ==> IsRowsOf(rows, r.value, Named(specs) * rows.Keys)
    {
      specs := [];
      NothingUpdated(rows);
      if |inputs| == 0 {
        return Ok([]), [];
      }
      var built: seq<(string, nat)> := [];
      for i := 0 to |inputs|
        invariant Valid() && rows == old(rows) && |built| == i && old(clock) <= clock
        invariant forall k :: 0 <= k < |inputs| && inputs[k] != null ==> inputs[k].id == old(inputs[k].id)
        invariant forall k :: 0 <= k < i ==>
          inputs[k] != null && built[k].0 == old(inputs[k].id) && old(clock) <= built[k].1 <= clock
      {
        var input := inputs[i];
        if input == null {
          return Err(NilInput), [];
        }
        if input.id == "" {
          return Err(IdRequired), [];
        }
        var now := Now();
        input.updatedAt := now;
        var valid := Exec();
        if !valid {
          return Err(Invalid), [];
        }
        built := built + [(input.id, now)];
      }
      specs := built;
      var ok, changed := UpdateMany(built);
      if !ok {
        return Err(DatabaseFailed), [];
      }
      var updated := ReturnRows(changed);
      return Ok(updated), built;
    }

    /** The rows that RETURNING yields, in any order, each put into the cache. */
    method ReturnRows(changed: set<string>) returns (updated: seq<User>)
      requires ValidExcept(changed) && changed <= rows.Keys
      modifies this`cache
      ensures Valid() && IsRowsOf(rows, updated, changed)
    {
      updated := [];
      var todo := changed;
      NoRowsYet(rows);
      NoneDone(changed);
      hide IsRowsOf, CoherentExcept, OwnIds, MakeCacheKey;
      while todo != {}
        invariant ValidExcept(todo) && todo <= changed
        invariant rows == old(rows) && IsRowsOf(rows, updated, changed - todo)
        decreases |todo|
      {
        var id :| id in todo;
        RowAdded(rows, updated, changed - todo, id);
        TakeRow(rows, id);
        Set(rows[id], todo);
        updated := updated + [rows[id]];
        OneMoreDone(changed, todo, id);
        todo := todo - {id};
      }
    }

    /** The UPDATE ... FROM data. */
    method UpdateMany(specs: seq<(string, nat)>) returns (ok: bool, changed: set<string>)
      requires Valid()
      modifies this`rows
      ensures !ok ==> rows == old(rows)
      ensures ok ==> Updated(old(rows), rows, specs) && changed == Named(specs) * rows.Keys && ValidExcept(changed)
    {
      ok := Exec();
      changed := {};
      if !ok {
        return;
      }
      var rows' := rows;
      NothingUpdated(rows);
      for k := 0 to |specs|
        invariant Valid() && rows == old(rows)
        invariant Updated(rows, rows', specs[..k]) && changed == Named(specs[..k]) * rows.Keys
      {
        assert specs[..k + 1] == specs[..k] + [specs[k]];
        var (id, time) := specs[k];
        var pick := Exec();
        UpdatedMore(rows, rows', specs[..k], id, time, pick);
        if id in rows' && (id !in changed || pick) {
          rows' := rows'[id := rows[id].(updatedAt := time)];
        }
        if id in rows {
          changed := changed + {id};
        }
      }
      assert specs[..|specs|] == specs;
      UpdatedCoherent(rows, rows', cache, specs);
      rows := rows';
    }

    method Delete(id: string) returns (r: Result<(), ClientError>)
      requires Valid()
      modifies this`rows, this`cache
      ensures Valid()
      ensures rows == if r.Ok? then old(rows) - {id} else old(rows)
    {
      var done := Exec();
      if !done {
        return Err(DatabaseFailed);
      }
      StillCoherent(rows, rows - {id}, cache, {id});
      rows := rows - {id};
      Remove(id, {id});
      assert {id} - {id} == {};
      return Ok(());
    }

    method BulkDelete(ids: seq<string>) returns (r: Result<nat, ClientError>)
      requires Valid()
      modifies this`rows, this`cache
      ensures Valid()
      ensures r.Err? ==> rows == old(rows)
      ensures r.Ok? ==> rows == old(rows) - IdSet(ids) && r.value == |old(rows).Keys * IdSet(ids)|
    {
      if |ids| == 0 {
        return Ok(0);
      }
      var done := Exec();
      if !done {
        return Err(DatabaseFailed);
      }
      var named := IdSet(ids);
      var affected := |rows.Keys * named|;
      StillCoherent(rows, rows - named, cache, named);
      rows := rows - named;
      ghost var except := named;
      hide OwnIds, CoherentExcept, IdSet, MakeCacheKey;
      assert ids[0..] == ids;
      for k := 0 to |ids|
        invariant ValidExcept(except) && rows == old(rows) - named
        invariant except <= IdSet(ids[k..])
      {
        RemainingIds(ids, k, except);
        Remove(ids[k], except);
        except := except - {ids[k]};
      }
      NoIds(ids[|ids|..]);
      return Ok(affected);
    }
  }

  lemma RemainingIds(ids: seq<string>, k: nat, except: set<string>)
    requires k < |ids| && except <= IdSet(ids[k..])
    ensures except - {ids[k]} <= IdSet(ids[k + 1..])
  {
    assert ids[k..] == [ids[k]] + ids[k + 1..];
  }

  lemma NoIds(ids: seq<string>)
    requires ids == []
    ensures IdSet(ids) == {}
  {
  }

  function Named(specs: seq<(string, nat)>): set<string> { set s | s in specs :: s.0 }

  /** The users are the rows of the ids, once each. */
  ghost predicate IsRowsOf(rows: Rows, users: seq<User>, ids: set<string>) {
    && (forall k :: 0 <= k < |users| ==> users[k].id in rows && users[k] == rows[users[k].id])
    && (forall j, k :: 0 <= j < k < |users| ==> users[j].id != users[k].id)
    && Ids(users) == ids
  }

  lemma NoRowsYet(rows: Rows)
    ensures IsRowsOf(rows, [], {})
  {
  }

  lemma RowAdded(rows: Rows, users: seq<User>, ids: set<string>, id: string)
    requires OwnIds(rows) && IsRowsOf(rows, users, ids) && id in rows && id !in ids
    ensures IsRowsOf(rows, users + [rows[id]], ids + {id})
  {
    forall k | 0 <= k < |users| ensures users[k].id != id {
      assert users[k] in users && users[k].id in Ids(users);
    }
  }

  lemma NoneDone(all: set<string>)
    ensures all - all == {} && all - {} == all
  {
  }

  lemma OneMoreDone(all: set<string>, todo: set<string>, id: string)
    requires todo <= all && id in todo
    ensures all - (todo - {id}) == (all - todo) + {id} && |todo - {id}| < |todo|
  {
  }

  lemma TakeRow(rows: Rows, id: string)
    requires OwnIds(rows) && id in rows
    ensures rows[id].id == id
  {
  }

  lemma NothingUpdated(rows: Rows)
    ensures Updated(rows, rows, []) && Named([]) == {}
  {
  }

  lemma UpdatedMore(rows: Rows, rows': Rows, specs: seq<(string, nat)>, id: string, time: nat, pick: bool)
    requires Updated(rows, rows', specs)
    ensures var specs' := specs + [(id, time)];
      && Named(specs') == Named(specs) + {id}
      && (id !in rows ==> Updated(rows, rows', specs'))
      && (id in rows && (id !in Named(specs) || pick) ==>
        Updated(rows, rows'[id := rows[id].(updatedAt := time)], specs'))
      && (id in rows && id in Named(specs) && !pick ==> Updated(rows, rows', specs'))
  {
    var specs' := specs + [(id, time)];
    assert forall s :: s in specs ==> s in specs';
    assert (id, time) in specs';
  }

  lemma UpdatedCoherent(rows: Rows, rows': Rows, cache: map<string, User>, specs: seq<(string, nat)>)
    requires OwnIds(rows) && CoherentExcept(rows, cache, {}) && Updated(rows, rows', specs)
    ensures OwnIds(rows') && CoherentExcept(rows', cache, Named(specs) * rows'.Keys)
  {
    forall id | id in rows && id !in Named(specs) ensures rows'[id] == rows[id] {
      assert forall s :: s in specs ==> s.0 in Named(specs);
    }
  }

  function IdSet(ids: seq<string>): set<string> { set id | id in ids }

  lemma {:induction false} InsertedOwnIds(rows: Rows, users: seq<User>)
    requires OwnIds(rows)
    ensures OwnIds(Inserted(rows, users))
  {
    if users != [] { InsertedOwnIds(rows, users[..|users| - 1]); }
  }
}
