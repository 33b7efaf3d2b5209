/** The two pieces of page building that carry logic (src/html.rs): link URLs and the account list. */
module Html {
  import opened Wrappers
  import opened Users

  /**
   * `create_url`: the pathname, followed by '?' and the serialised query parameters when
   * there are any.  `serialize` stands for `serde_url_params::to_string`.
   */
  function CreateUrl<T>(pathname: string, qwargs: Option<T>, serialize: T -> string): (url: string)
    ensures qwargs.None? ==> url == pathname
    ensures qwargs.Some? ==> url == pathname + "?" + serialize(qwargs.value)
  {
    match qwargs
    case Some(params) => pathname + "?" + serialize(params)
    case None => pathname
  }

  /** The path of a URL: everything before its first '?'. */
  function PathPart(url: string): string {
    if url == [] || url[0] == '?' then [] else [url[0]] + PathPart(url[1..])
  }

  /** The query of a URL: everything after its first '?', if it has one. */
  function QueryPart(url: string): Option<string> {
    if url == [] then None
    else if url[0] == '?' then Some(url[1..])
    else QueryPart(url[1..])
  }

  lemma {:induction false} SplitAfterPlainPrefix(prefix: string, rest: string)
    requires '?' !in prefix
    ensures PathPart(prefix + rest) == prefix + PathPart(rest)
    ensures QueryPart(prefix + rest) == QueryPart(rest)
  {
    if prefix != [] {
      assert prefix[0] in prefix;
      assert (prefix + rest)[0] == prefix[0] != '?';
      assert (prefix + rest)[1..] == prefix[1..] + rest;
      SplitAfterPlainPrefix(prefix[1..], rest);
      assert [prefix[0]] + (prefix[1..] + PathPart(rest)) == prefix + PathPart(rest);
    } else {
      assert prefix + rest == rest && prefix + PathPart(rest) == PathPart(rest);
    }
  }

  /**
   * A URL built by `create_url` from a pathname without '?' splits back into that pathname
   * and exactly the serialised parameters.
   */
  lemma UrlRoundTrip<T>(pathname: string, qwargs: Option<T>, serialize: T -> string)
    requires '?' !in pathname
    ensures PathPart(CreateUrl(pathname, qwargs, serialize)) == pathname
    ensures QueryPart(CreateUrl(pathname, qwargs, serialize))
              == if qwargs.Some? then Some(serialize(qwargs.value)) else None
  {
    match qwargs
    case Some(params) =>
      SplitAfterPlainPrefix(pathname, "?" + serialize(params));
      assert pathname + "?" + serialize(params) == pathname + ("?" + serialize(params));
    case None =>
      SplitAfterPlainPrefix(pathname, []);
      assert pathname + [] == pathname;
  }

  ghost predicate SortedById(s: seq<User>) {
    forall p, q :: 0 <= p < q < |s| ==> s[p].id <= s[q].id
  }

  ghost predicate NoDuplicates(s: seq<User>) {
    forall p, q :: 0 <= p < q < |s| ==> s[p] != s[q]
  }

  /** A sequence that holds each of its elements once has no repeats. */
  lemma {:induction false} CountsNoDuplicates(s: seq<User>)
    requires forall u :: multiset(s)[u] <= 1
    ensures NoDuplicates(s)
  {
    if s != [] {
      assert s == [s[0]] + s[1..];
      assert multiset(s) == multiset{s[0]} + multiset(s[1..]);
      forall u ensures multiset(s[1..])[u] <= 1 {
        assert multiset(s)[u] == (if u == s[0] then 1 else 0) + multiset(s[1..])[u];
      }
      CountsNoDuplicates(s[1..]);
      assert multiset(s[1..])[s[0]] == 0;
    }
  }

  method Swap(a: array<User>, i: nat, j: nat)
    requires i < a.Length && j < a.Length
    modifies a
    ensures a[i] == old(a[j]) && a[j] == old(a[i])
    ensures forall k :: 0 <= k < a.Length && k != i && k != j ==> a[k] == old(a[k])
    ensures multiset(a[..]) == old(multiset(a[..]))
  {
    a[i], a[j] := a[j], a[i];
  }

  /** `sort_unstable_by_key(|user| user.id)`, in place. */
  method SortById(a: array<User>)
    modifies a
    ensures SortedById(a[..])
    ensures multiset(a[..]) == old(multiset(a[..]))
  {
    var i := 0;
    while i < a.Length
      invariant 0 <= i <= a.Length
      invariant SortedById(a[..i])
      invariant multiset(a[..]) == old(multiset(a[..]))
    {
      var j := i;
      while j > 0 && a[j - 1].id > a[j].id
        invariant 0 <= j <= i
        invariant forall p, q :: 0 <= p < q <= i && q != j ==> a[p].id <= a[q].id
        invariant 0 < j < i ==> a[j - 1].id <= a[j + 1].id
        invariant multiset(a[..]) == old(multiset(a[..]))
      {
        Swap(a, j - 1, j);
        j := j - 1;
      }
      i := i + 1;
    }
  }

  /** The keys, outside `skip`, under which the table stores `u`. */
  ghost function KeysStoring(t: UserTable, skip: set<UserId>, u: User): set<UserId> {
    set id | id in t && id !in skip && t[id] == u
  }

  /** Moving one key from the rest to the collected list adds its value once. */
  lemma CollectStep(table: UserTable, rest: UserTable, collected: seq<User>, id: UserId)
    requires id in rest && forall k :: k in rest ==> k in table && rest[k] == table[k]
    requires forall u :: multiset(collected)[u] == |KeysStoring(table, rest.Keys, u)|
    ensures forall u :: multiset(collected + [rest[id]])[u] == |KeysStoring(table, (rest - {id}).Keys, u)|
  {
    assert (rest - {id}).Keys == rest.Keys - {id};
    forall u
      ensures multiset(collected + [rest[id]])[u] == |KeysStoring(table, (rest - {id}).Keys, u)|
    {
      if u == table[id] {
        assert KeysStoring(table, (rest - {id}).Keys, u) == KeysStoring(table, rest.Keys, u) + {id};
      } else {
        assert KeysStoring(table, (rest - {id}).Keys, u) == KeysStoring(table, rest.Keys, u);
      }
    }
  }

  /**
   * A list holding each value as often as the table stores it holds exactly the table's values,
   * and no value twice when every account is stored under its own id.
   */
  lemma CountsGiveContents(table: UserTable, s: seq<User>)
    requires forall u :: multiset(s)[u] == |KeysStoring(table, {}, u)|
    ensures forall k :: 0 <= k < |s| ==> s[k] in table.Values
    ensures forall id :: id in table ==> table[id] in s
    ensures KeysMatchIds(table) ==> NoDuplicates(s)
  {
    forall k | 0 <= k < |s|
      ensures s[k] in table.Values
    {
      assert s[k] in multiset(s);
      var id :| id in KeysStoring(table, {}, s[k]);
    }
    forall id | id in table
      ensures table[id] in s
    {
      assert id in KeysStoring(table, {}, table[id]);
      assert table[id] in multiset(s);
    }
    if KeysMatchIds(table) {
      forall u
        ensures multiset(s)[u] <= 1
      {
        assert KeysStoring(table, {}, u) <= {u.id};
        SubsetCardinality(KeysStoring(table, {}, u), {u.id});
      }
      CountsNoDuplicates(s);
    }
  }

  lemma SubsetCardinality(a: set<UserId>, b: set<UserId>)
    requires a <= b
    ensures |a| <= |b|
  {
    assert b == a + (b - a);
  }

  /** `table.values().collect::<Vec<_>>()`: each value once per key storing it, in no particular order. */
  method CollectValues(table: UserTable) returns (collected: seq<User>)
    ensures forall u :: multiset(collected)[u] == |KeysStoring(table, {}, u)|
    ensures |collected| == |table|
  {
    collected := [];
    var rest := table;
    while rest != map[]
      invariant forall id :: id in rest ==> id in table && rest[id] == table[id]
      invariant forall u :: multiset(collected)[u] == |KeysStoring(table, rest.Keys, u)|
      invariant |collected| + |rest| == |table|
      decreases |rest|
    {
      var id :| id in rest;
      CollectStep(table, rest, collected, id);
      assert (rest - {id}).Keys == rest.Keys - {id};
      collected := collected + [rest[id]];
      rest := rest - {id};
    }
    assert rest.Keys == {};
  }

  /**
   * `ListUsersTemplate::from`: every account of the table, as often as the table stores it,
   * sorted by id.  The table is read, never changed.
   */
  method ListUsers(table: UserTable) returns (users: seq<User>)
    ensures forall u :: multiset(users)[u] == |KeysStoring(table, {}, u)|
    ensures |users| == |table|
    ensures forall k :: 0 <= k < |users| ==> users[k] in table.Values
    ensures forall id :: id in table ==> table[id] in users
    ensures SortedById(users)
    ensures KeysMatchIds(table) ==> forall p, q :: 0 <= p < q < |users| ==> users[p].id < users[q].id
  {
    var collected := CollectValues(table);
    var a := new User[|collected|](k requires 0 <= k < |collected| => collected[k]);
    assert a[..] == collected;
    SortById(a);
    users := a[..];
    CountsGiveContents(table, users);
  }
}
