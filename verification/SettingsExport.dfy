/** Exporting connections and variables into the settings file: each exported entry replaces the
    stored one of the same id, if there is one, and goes to the end. */
module SettingsExport {
  import opened Strings

  datatype Entry<V> = Entry(id: string, value: V)

  datatype Details = Details(connType: string, host: string, schema: string, login: string, password: string,
                             port: int, uri: string, extra: map<string, string>)

  type Connection = Entry<Details>
  type Variable = Entry<string>

  /** A connection as `airflow connections list` prints it. */
  datatype AirflowConnection = AirflowConnection(connId: string, connType: string, host: string, schema: string,
                                                 login: string, password: string, port: string,
                                                 extra: map<string, string>)

  /** `strconv.Atoi` with its error ignored: 0 for what is no number, the nearest int for one
      out of range. */
  function Atoi(s: string): int {
    var negative := HasPrefix(s, "-");
    var digits := if negative || HasPrefix(s, "+") then s[1..] else s;
    if digits == "" || !AllDigits(digits) then 0
    else
      var n: int := Value(digits);
      if negative then (if n > MAX_INT + 1 then -MAX_INT - 1 else -n) else if n > MAX_INT then MAX_INT else n
  }

  /** A number within range is read as itself, one out of range as the nearest, and what is no
      number as 0. */
  lemma AtoiMeans(n: nat, s: string)
    ensures Atoi(Itoa(n)) == Atoi("+" + Itoa(n)) == if n <= MAX_INT then n else MAX_INT
    ensures var i: int := n; Atoi("-" + Itoa(n)) == if i <= MAX_INT + 1 then -i else -MAX_INT - 1
    ensures s in {"", "+", "-"} ==> Atoi(s) == 0
    ensures s != "" && (s[0] !in "+-0123456789" || exists i :: 0 < i < |s| && !IsDigit(s[i])) ==> Atoi(s) == 0
  {
    ValueOfItoa(n);
    assert IsDigit(Itoa(n)[0]);
    assert ("+" + Itoa(n))[1..] == Itoa(n) && ("-" + Itoa(n))[1..] == Itoa(n);
    if i :| 0 < i < |s| && !IsDigit(s[i]) {
      assert s[1..][i - 1] == s[i];
    }
  }

  function Converted(c: AirflowConnection): Connection {
    var port := if c.port != "" then Atoi(c.port) else 0;
    Entry(c.connId, Details(c.connType, c.host, c.schema, c.login, c.password, port, "", c.extra))
  }

  /** Every field is taken over; there is no URI, and an absent port is 0. */
  lemma ConvertedMeans(c: AirflowConnection, n: nat)
    ensures var d := Converted(c).value;
            && Converted(c).id == c.connId && d.connType == c.connType && d.host == c.host && d.schema == c.schema
            && d.login == c.login && d.password == c.password && d.extra == c.extra && d.uri == ""
            && (c.port == "" ==> d.port == 0) && (c.port == Itoa(n) && n <= MAX_INT ==> d.port == n)
  {
    AtoiMeans(n, "");
  }

  // ---------- the merge ----------

  function IndexOfId<V>(s: seq<Entry<V>>, id: string): (n: nat)
    ensures n <= |s| && (n < |s| ==> s[n].id == id) && forall i :: 0 <= i < n ==> s[i].id != id
  {
    if s == [] || s[0].id == id then 0 else 1 + IndexOfId(s[1..], id)
  }

  /** A list without its first entry of an id. */
  function Without<V>(t: seq<Entry<V>>, id: string): seq<Entry<V>> {
    var n := IndexOfId(t, id);
    if n < |t| then t[..n] + t[n + 1..] else t
  }

  /** The stored entries after one exported entry. */
  function MergeOne<V>(s: seq<Entry<V>>, e: Entry<V>): seq<Entry<V>> {
    Without(s, e.id) + [e]
  }

  function MergeAll<V>(s: seq<Entry<V>>, es: seq<Entry<V>>): seq<Entry<V>> {
    if es == [] then s else MergeOne(MergeAll(s, es[..|es| - 1]), es[|es| - 1])
  }

  /** How many entries have this id. */
  function Count<V>(s: seq<Entry<V>>, id: string): nat {
    if s == [] then 0 else (if s[0].id == id then 1 else 0) + Count(s[1..], id)
  }

  ghost predicate Unique<V>(s: seq<Entry<V>>) { forall id :: Count(s, id) <= 1 }

  /** The stored entries no exported one replaces, in their order. */
  function Others<V>(s: seq<Entry<V>>, es: seq<Entry<V>>): seq<Entry<V>> {
    if s == [] then [] else (if Count(es, s[0].id) == 0 then [s[0]] else []) + Others(s[1..], es)
  }

  lemma {:induction false} CountConcat<V>(a: seq<Entry<V>>, b: seq<Entry<V>>, id: string)
    ensures Count(a + b, id) == Count(a, id) + Count(b, id)
  {
    if a == [] {
      assert a + b == b;
    } else {
      CountConcat(a[1..], b, id);
      assert (a + b)[1..] == a[1..] + b;
    }
  }

  lemma CountOne<V>(e: Entry<V>, id: string)
    ensures Count([e], id) == if e.id == id then 1 else 0
  {
    assert [e][1..] == [];
  }

  lemma {:induction false} NoneBeforeIndex<V>(s: seq<Entry<V>>, id: string)
    ensures Count(s[..IndexOfId(s, id)], id) == 0
    ensures IndexOfId(s, id) == |s| <==> Count(s, id) == 0
  {
    if s != [] && s[0].id != id {
      NoneBeforeIndex(s[1..], id);
      var n := IndexOfId(s, id);
      assert s[..n][1..] == s[1..][..n - 1];
    }
  }

  lemma MergeOneCounts<V>(s: seq<Entry<V>>, e: Entry<V>, id: string)
    ensures Count(MergeOne(s, e), id) == if id == e.id && Count(s, id) == 0 then 1 else Count(s, id)
  {
    var n := IndexOfId(s, e.id);
    NoneBeforeIndex(s, e.id);
    CountOne(e, id);
    if n < |s| {
      assert s == s[..n] + ([s[n]] + s[n + 1..]);
      CountConcat(s[..n], [s[n]] + s[n + 1..], id);
      CountConcat([s[n]], s[n + 1..], id);
      CountOne(s[n], id);
      CountConcat(s[..n], s[n + 1..], id);
      CountConcat(s[..n] + s[n + 1..], [e], id);
    } else {
      CountConcat(s, [e], id);
    }
  }

  /** However often an id was stored or exported: an exported id is stored at least once
      afterwards, and otherwise no count changes. */
  lemma {:induction false} MergeAllCounts<V>(s: seq<Entry<V>>, es: seq<Entry<V>>, id: string)
    ensures Count(MergeAll(s, es), id) == if Count(es, id) > 0 && Count(s, id) == 0 then 1 else Count(s, id)
    decreases |es|
  {
    if es == [] {
    } else {
      hide MergeAll, MergeOne, Count;
      var n := |es| - 1;
      assert es == es[..n] + [es[n]];
      SnocMerge(s, es[..n], es[n]);
      CountSnoc(es[..n], es[n], id);
      MergeAllCounts(s, es[..n], id);
      MergeOneCounts(MergeAll(s, es[..n]), es[n], id);
    }
  }

  /** An export leaves the stored ids unique exactly when they were unique before: it removes
      only the first entry of an id. */
  lemma UniqueAfterExactly<V>(s: seq<Entry<V>>, es: seq<Entry<V>>)
    ensures Unique(MergeAll(s, es)) <==> Unique(s)
  {
    forall id ensures Count(MergeAll(s, es), id) <= 1 <==> Count(s, id) <= 1 {
      MergeAllCounts(s, es, id);
    }
  }

  // ---------- where everything ends up ----------

  lemma OthersCons<V>(h: Entry<V>, r: seq<Entry<V>>, es: seq<Entry<V>>)
    ensures Others([h] + r, es) == if Count(es, h.id) == 0 then [h] + Others(r, es) else Others(r, es)
  {
    assert ([h] + r)[1..] == r;
  }

  lemma {:induction false} OthersConcat<V>(a: seq<Entry<V>>, b: seq<Entry<V>>, es: seq<Entry<V>>)
    ensures Others(a + b, es) == Others(a, es) + Others(b, es)
  {
    if a == [] {
      assert a + b == b;
    } else {
      hide Others, Count;
      var h, r := a[0], a[1..];
      OthersConcat(r, b, es);
      OthersCons(h, r, es);
      OthersCons(h, r + b, es);
      assert a == [h] + r;
      Associate([h], r, b);
      Associate([h], Others(r, es), Others(b, es));
    }
  }

  lemma {:induction false} OthersOfUnrelated<V>(s: seq<Entry<V>>, es: seq<Entry<V>>)
    requires forall e :: e in s ==> Count(es, e.id) == 0
    ensures Others(s, es) == s
  {
    if s == [] {
    } else {
      OthersOfUnrelated(s[1..], es);
      assert s == [s[0]] + s[1..];
    }
  }

  lemma {:induction false} OthersOfReplaced<V>(s: seq<Entry<V>>, es: seq<Entry<V>>)
    requires forall e :: e in s ==> Count(es, e.id) > 0
    ensures Others(s, es) == []
  {
    if s == [] {
    } else {
      OthersOfReplaced(s[1..], es);
    }
  }

  lemma {:induction false} CountOfMember<V>(s: seq<Entry<V>>, e: Entry<V>)
    requires e in s
    ensures Count(s, e.id) > 0
  {
    if s[0] != e { CountOfMember(s[1..], e); }
  }

  lemma {:induction false} MemberOfCount<V>(s: seq<Entry<V>>, id: string)
    requires Count(s, id) > 0
    ensures exists e :: e in s && e.id == id
  {
    if s[0].id == id {
      assert s[0] in s;
    } else {
      MemberOfCount(s[1..], id);
    }
  }

  lemma IndexOfHead<V>(h: Entry<V>, u: seq<Entry<V>>, id: string)
    ensures IndexOfId([h] + u, id) == if h.id == id then 0 else 1 + IndexOfId(u, id)
  {
    assert ([h] + u)[1..] == u;
  }

  lemma WithoutHead<V>(h: Entry<V>, u: seq<Entry<V>>, id: string)
    ensures Without([h] + u, id) == if h.id == id then u else [h] + Without(u, id)
  {
    hide IndexOfId;
    IndexOfHead(h, u, id);
    var t := [h] + u;
    var n := IndexOfId(u, id);
    if h.id == id {
      assert t[..0] == [] && t[1..] == u;
    } else if n < |u| {
      assert t[..n + 1] == [h] + u[..n];
      assert t[n + 2..] == u[n + 1..];
      Associate([h], u[..n], u[n + 1..]);
    }
  }

  lemma CountSnoc<V>(es: seq<Entry<V>>, e: Entry<V>, id: string)
    ensures Count(es + [e], id) == Count(es, id) + (if e.id == id then 1 else 0)
  {
    CountConcat(es, [e], id);
    CountOne(e, id);
  }

  lemma TailIsUnique<V>(s: seq<Entry<V>>)
    requires s != [] && Unique(s)
    ensures Unique(s[1..]) && Count(s[1..], s[0].id) == 0
  {
    forall id ensures Count(s[1..], id) <= 1 { assert Count(s, id) <= 1; }
    assert Count(s, s[0].id) <= 1;
  }

  /** One more exported id: the others lose at most its one entry. */
  lemma {:induction false} OthersSnoc<V>(s: seq<Entry<V>>, es: seq<Entry<V>>, e: Entry<V>)
    requires Unique(s) && Count(es, e.id) == 0
    ensures Others(s, es + [e]) == Without(Others(s, es), e.id)
  {
    if s == [] {
      assert Without<V>([], e.id) == [];
    } else {
      hide Count, Unique, Without, Others;
      var h, r := s[0], s[1..];
      assert s == [h] + r;
      TailIsUnique(s);
      CountSnoc(es, e, h.id);
      OthersSnoc(r, es, e);
      OthersCons(h, r, es);
      OthersCons(h, r, es + [e]);
      WithoutHead(h, Others(r, es), e.id);
      if h.id == e.id { NothingToDrop(r, es, e); }
    }
  }

  lemma {:induction false} NothingToDrop<V>(s: seq<Entry<V>>, es: seq<Entry<V>>, e: Entry<V>)
    requires Count(s, e.id) == 0
    ensures Others(s, es + [e]) == Others(s, es)
  {
    if s == [] {
    } else {
      CountConcat(es, [e], s[0].id);
      CountOne(e, s[0].id);
      NothingToDrop(s[1..], es, e);
    }
  }

  /** With unique ids on both sides the result is exactly: the entries that were not exported,
      in their order, then the exported ones, in theirs. */
  lemma {:induction false} MergeAllIs<V>(s: seq<Entry<V>>, es: seq<Entry<V>>)
    requires Unique(s) && Unique(es)
    ensures MergeAll(s, es) == Others(s, es) + es
    decreases |es|
  {
    if es == [] {
      OthersOfUnrelated(s, es);
    } else {
      var n := |es| - 1;
      var front, e := es[..n], es[n];
      assert es == front + [e];
      forall id ensures Count(front, id) <= 1 { CountConcat(front, [e], id); assert Count(es, id) <= 1; }
      CountConcat(front, [e], e.id);
      CountOne(e, e.id);
      assert Count(es, e.id) <= 1;
      MergeAllIs(s, front);
      OthersSnoc(s, front, e);
      PlaceOfMerge(Others(s, front), front, e);
    }
  }

  lemma WithoutAbsent<V>(s: seq<Entry<V>>, id: string)
    requires Count(s, id) == 0
    ensures Without(s, id) == s
  {
    NoneBeforeIndex(s, id);
    hide Count, IndexOfId;
  }

  lemma {:induction false} WithoutInFront<V>(t: seq<Entry<V>>, front: seq<Entry<V>>, id: string)
    requires Count(front, id) == 0
    ensures Without(t + front, id) == Without(t, id) + front
  {
    if t == [] {
      WithoutAbsent(front, id);
      WithoutAbsent(t, id);
      assert t + front == front && [] + front == front;
    } else {
      hide Without, Count;
      var h, r := t[0], t[1..];
      assert t == [h] + r;
      Associate([h], r, front);
      WithoutHead(h, r, id);
      WithoutHead(h, r + front, id);
      WithoutInFront(r, front, id);
      Associate([h], Without(r, id), front);
    }
  }

  lemma PlaceOfMerge<V>(t: seq<Entry<V>>, front: seq<Entry<V>>, e: Entry<V>)
    requires Count(front, e.id) == 0
    ensures MergeOne(t + front, e) == Without(t, e.id) + (front + [e])
  {
    hide Without, Count;
    WithoutInFront(t, front, e.id);
    Associate(Without(t, e.id), front, [e]);
  }

  /** An exported id holds its exported value, exactly once; every other entry is still there
      and in the same relative order. */
  lemma ExportedHoldsOnce<V>(s: seq<Entry<V>>, es: seq<Entry<V>>, e: Entry<V>)
    requires Unique(s) && Unique(es) && e in es
    ensures e in MergeAll(s, es) && Count(MergeAll(s, es), e.id) == 1
    ensures forall f :: f in MergeAll(s, es) && f.id == e.id ==> f == e
  {
    MergeAllIs(s, es);
    MergeAllCounts(s, es, e.id);
    CountOfMember(es, e);
    assert Count(s, e.id) <= 1;
    hide MergeAll;
    forall f | f in MergeAll(s, es) && f.id == e.id ensures f == e {
      OnlyOne(MergeAll(s, es), e, f);
    }
  }

  lemma {:induction false} OnlyOne<V>(s: seq<Entry<V>>, e: Entry<V>, f: Entry<V>)
    requires e in s && f in s && e.id == f.id && Count(s, e.id) <= 1
    ensures e == f
  {
    if s[0] == e {
      if f in s[1..] { CountOfMember(s[1..], f); }
    } else if s[0] == f {
      CountOfMember(s[1..], e);
    } else {
      OnlyOne(s[1..], e, f);
    }
  }

  lemma {:induction false} MembersHaveCount<V>(es: seq<Entry<V>>)
    ensures forall e :: e in es ==> Count(es, e.id) > 0
  {
    forall e | e in es ensures Count(es, e.id) > 0 { CountOfMember(es, e); }
  }

  lemma {:induction false} OthersAreUnrelated<V>(s: seq<Entry<V>>, es: seq<Entry<V>>)
    ensures forall e :: e in Others(s, es) ==> Count(es, e.id) == 0
  {
    if s == [] {
    } else {
      OthersAreUnrelated(s[1..], es);
    }
  }

  /** A second, identical export changes nothing. */
  lemma SecondExportIsIdentity<V>(s: seq<Entry<V>>, es: seq<Entry<V>>)
    requires Unique(s) && Unique(es)
    ensures MergeAll(MergeAll(s, es), es) == MergeAll(s, es)
  {
    hide MergeAll, Others, Count, Unique;
    MergeAllIs(s, es);
    UniqueAfterExactly(s, es);
    MergeAllIs(MergeAll(s, es), es);
    OthersConcat(Others(s, es), es, es);
    OthersAreUnrelated(s, es);
    OthersOfUnrelated(Others(s, es), es);
    MembersHaveCount(es);
    OthersOfReplaced(es, es);
  }

  /** Exporting the same entries in another order gives the same entries. */
  lemma {:induction false} OrderShowsOnlyInOrder<V>(s: seq<Entry<V>>, es: seq<Entry<V>>, fs: seq<Entry<V>>)
    requires Unique(s) && Unique(es) && Unique(fs) && multiset(es) == multiset(fs)
    ensures multiset(MergeAll(s, es)) == multiset(MergeAll(s, fs))
    ensures Others(s, es) == Others(s, fs)
  {
    MergeAllIs(s, es);
    MergeAllIs(s, fs);
    SameOthers(s, es, fs);
  }

  lemma {:induction false} SameOthers<V>(s: seq<Entry<V>>, es: seq<Entry<V>>, fs: seq<Entry<V>>)
    requires multiset(es) == multiset(fs)
    ensures Others(s, es) == Others(s, fs)
  {
    if s == [] {
    } else {
      SameOthers(s[1..], es, fs);
      SameIds(es, fs, s[0].id);
      SameIds(fs, es, s[0].id);
    }
  }

  lemma SameIds<V>(es: seq<Entry<V>>, fs: seq<Entry<V>>, id: string)
    requires multiset(es) == multiset(fs)
    ensures Count(es, id) > 0 ==> Count(fs, id) > 0
  {
    if Count(es, id) > 0 {
      MemberOfCount(es, id);
      var e :| e in es && e.id == id;
      assert e in multiset(es) && e in fs;
      CountOfMember(fs, e);
    }
  }

  // ---------- the exporter ----------

  /** The entries of a map, one for each key of `order`. */
  function EntriesOf(m: map<string, string>, order: seq<string>): seq<Variable>
    requires forall k :: k in order ==> k in m
  {
    if order == [] then [] else EntriesOf(m, order[..|order| - 1]) + [Entry(order[|order| - 1], m[order[|order| - 1]])]
  }

  function ConvertedAll(cs: seq<AirflowConnection>): seq<Connection> {
    if cs == [] then [] else ConvertedAll(cs[..|cs| - 1]) + [Converted(cs[|cs| - 1])]
  }

  /** Removes the first entry of an id, if there is one. */
  method RemoveExisting<V>(s: seq<Entry<V>>, id: string) returns (r: seq<Entry<V>>)
    ensures r == Without(s, id)
  {
    r := s;
    for j := 0 to |s|
      invariant r == s && forall i :: 0 <= i < j ==> s[i].id != id
    {
      if s[j].id == id {
        r := s[..j] + s[j + 1..];
        break;
      }
    }
  }

  class Settings {
    var connections: seq<Connection>
    var variables: seq<Variable>

    constructor (connections: seq<Connection>, variables: seq<Variable>)
      ensures this.connections == connections && this.variables == variables
    {
      this.connections, this.variables := connections, variables;
    }

    method ExportConnections(exported: seq<AirflowConnection>)
      modifies this`connections
      ensures connections == MergeAll(old(connections), ConvertedAll(exported))
    {
      hide MergeAll, ConvertedAll, Without, Atoi;
      ghost var was := connections;
      NothingExported(was);
      for i := 0 to |exported|
        invariant connections == MergeAll(was, ConvertedAll(exported[..i]))
      {
        var port := 0;
        if exported[i].port != "" { port := Atoi(exported[i].port); }
        var c := exported[i];
        connections := RemoveExisting(connections, c.connId);
        var details := Details(c.connType, c.host, c.schema, c.login, c.password, port, "", c.extra);
        connections := connections + [Entry(c.connId, details)];
        assert exported[..i + 1] == exported[..i] + [c];
        SnocConverted(exported[..i], c);
        SnocMerge(was, ConvertedAll(exported[..i]), Converted(c));
      }
      assert exported[..|exported|] == exported;
    }

    /** In whatever order the map is visited. */
    method ExportVariables(m: map<string, string>) returns (ghost order: seq<string>)
      modifies this`variables
      ensures multiset(order) == multiset(m.Keys) && (forall k :: k in order ==> k in m)
      ensures variables == MergeAll(old(variables), EntriesOf(m, order))
    {
      hide MergeAll, EntriesOf, Without;
      ghost var was := variables;
      NothingExportedFrom(was, m);
      order := [];
      var todo := m.Keys;
      while todo != {}
        invariant todo <= m.Keys && (forall k :: k in order ==> k in m)
        invariant multiset(order) + multiset(todo) == multiset(m.Keys)
        invariant variables == MergeAll(was, EntriesOf(m, order))
        decreases todo
      {
        var k :| k in todo;
        assert todo == (todo - {k}) + {k};
        todo := todo - {k};
        variables := RemoveExisting(variables, k);
        variables := variables + [Entry(k, m[k])];
        SnocEntries(m, order, k);
        SnocMerge(was, EntriesOf(m, order), Entry(k, m[k]));
        order := order + [k];
      }
    }
  }

  lemma SnocMerge<V>(s: seq<Entry<V>>, es: seq<Entry<V>>, e: Entry<V>)
    ensures MergeAll(s, es + [e]) == MergeOne(MergeAll(s, es), e)
  {
    assert (es + [e])[..|es|] == es;
  }

  lemma NothingExported(s: seq<Connection>)
    ensures ConvertedAll([]) == [] && MergeAll(s, []) == s
  {}

  lemma NothingExportedFrom(s: seq<Variable>, m: map<string, string>)
    ensures EntriesOf(m, []) == [] && MergeAll(s, []) == s
  {}

  lemma SnocConverted(cs: seq<AirflowConnection>, c: AirflowConnection)
    ensures ConvertedAll(cs + [c]) == ConvertedAll(cs) + [Converted(c)]
  {
    assert (cs + [c])[..|cs|] == cs;
  }

  lemma SnocEntries(m: map<string, string>, order: seq<string>, k: string)
    requires (forall j :: j in order ==> j in m) && k in m
    ensures EntriesOf(m, order + [k]) == EntriesOf(m, order) + [Entry(k, m[k])]
  {
    assert (order + [k])[..|order|] == order;
  }

  /** A map exports unique ids: the laws above hold for any visiting order. */
  lemma {:induction false} MapEntriesAreUnique(m: map<string, string>, order: seq<string>, id: string)
    requires (forall k :: k in order ==> k in m) && multiset(order)[id] <= 1
    ensures Count(EntriesOf(m, order), id) == multiset(order)[id]
  {
    if order == [] {
    } else {
      var n := |order| - 1;
      assert order == order[..n] + [order[n]];
      MapEntriesAreUnique(m, order[..n], id);
      CountConcat(EntriesOf(m, order[..n]), [Entry(order[n], m[order[n]])], id);
      CountOne(Entry(order[n], m[order[n]]), id);
    }
  }
}
