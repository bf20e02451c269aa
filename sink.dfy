/**
 * The ordered dictionary `{deal name: [entries]}` the detail traversals fill,
 * its two merge policies, and its flattening into CSV rows.
 */
module Sink {
  import opened Wrappers
  import opened Text
  import opened Extract

  /** A Python dict from deal name to entry list, in insertion order. */
  type Deals = seq<(string, seq<Entry>)>

  /** One write into the dict: a deal name and the entries a visit produced. */
  type Write = (string, seq<Entry>)

  /** The dict's keys, in insertion order. */
  function Names(d: Deals): (r: seq<string>)
    ensures |r| == |d|
    ensures forall i :: 0 <= i < |d| ==> r[i] == d[i].0
  {
    if |d| == 0 then [] else [d[0].0] + Names(d[1..])
  }

  /** A dict never holds a key twice. */
  predicate UniqueNames(d: Deals) {
    NoDup(Names(d))
  }

  /** `d.get(k)`. */
  function Lookup(d: Deals, k: string): Option<seq<Entry>>
  {
    if |d| == 0 then None else if d[0].0 == k then Some(d[0].1) else Lookup(d[1..], k)
  }

  /** `d.get(k)` is absent exactly when `k` is not a key. */
  lemma {:induction false} LookupNone(d: Deals, k: string)
    ensures Lookup(d, k).None? <==> k !in Names(d)
  {
    if |d| > 0 {
      LookupNone(d[1..], k);
      assert Names(d) == [d[0].0] + Names(d[1..]);
    }
  }

  /** `d[k] = es`: an existing key keeps its position, a new key goes last. */
  function Put(d: Deals, k: string, es: seq<Entry>): (r: Deals)
    ensures Lookup(r, k) == Some(es)
    ensures forall j :: j != k ==> Lookup(r, j) == Lookup(d, j)
  {
    if |d| == 0 then [(k, es)]
    else if d[0].0 == k then [(k, es)] + d[1..]
    else [d[0]] + Put(d[1..], k, es)
  }

  /** `d[k] = es` leaves the key order alone, or adds `k` as the last key. */
  lemma {:induction false} PutNames(d: Deals, k: string, es: seq<Entry>)
    ensures Names(Put(d, k, es)) == if k in Names(d) then Names(d) else Names(d) + [k]
  {
    if |d| > 0 && d[0].0 != k {
      PutNames(d[1..], k, es);
      assert Names(d) == [d[0].0] + Names(d[1..]);
    }
  }

  /** `d[k] = es` keeps the keys distinct. */
  lemma PutKeepsUnique(d: Deals, k: string, es: seq<Entry>)
    requires UniqueNames(d)
    ensures UniqueNames(Put(d, k, es))
  {
    var n := Names(d);
    PutNames(d, k, es);
    if k !in n {
      assert Names(Put(d, k, es)) == n + [k];
      forall i, j | 0 <= i < j < |n + [k]| ensures (n + [k])[i] != (n + [k])[j] {
        if j == |n| { assert (n + [k])[i] == n[i]; }
      }
    }
  }

  /** After `d[k] = es`, each item is `(k, es)` or an item of `d`. */
  lemma {:induction false} PutHolds(d: Deals, k: string, es: seq<Entry>)
    ensures forall p :: p in Put(d, k, es) ==> p == (k, es) || p in d
  {
    if |d| > 0 && d[0].0 != k {
      PutHolds(d[1..], k, es);
    }
  }

  /** In a dict with distinct keys, every item is what its key looks up. */
  lemma {:induction false} LookupMember(d: Deals, p: Write)
    requires UniqueNames(d) && p in d
    ensures Lookup(d, p.0) == Some(p.1)
  {
    if d[0] != p {
      assert p in d[1..];
      var n := Names(d);
      assert Names(d[1..]) == n[1..];
      var i :| 0 <= i < |d[1..]| && d[1..][i] == p;
      assert n[i + 1] == p.0;
      assert d[0].0 != p.0;
      LookupMember(d[1..], p);
    }
  }

  /** The entries stored under `k`, or none. */
  function Existing(d: Deals, k: string): (r: seq<Entry>)
    ensures Lookup(d, k).Some? ==> r == Lookup(d, k).value
    ensures Lookup(d, k).None? ==> r == []
  {
    match Lookup(d, k)
    case None => []
    case Some(es) => es
  }

  /**
   * `deals[k].append(e)` for each `e` in `es`, creating the key on the first
   * append: an empty `es` leaves `d` untouched, so no key gets an empty list.
   */
  function AppendAll(d: Deals, k: string, es: seq<Entry>): (r: Deals)
    ensures |es| == 0 ==> r == d
    ensures |es| > 0 ==> Lookup(r, k) == Some(Existing(d, k) + es)
  {
    if |es| == 0 then d else Put(d, k, Existing(d, k) + es)
  }

  /** Appending under `k` leaves every other key as it was. */
  lemma AppendAllOthers(d: Deals, k: string, es: seq<Entry>, j: string)
    requires j != k
    ensures Lookup(AppendAll(d, k, es), j) == Lookup(d, j)
  {
    if |es| > 0 {
      assert AppendAll(d, k, es) == Put(d, k, Existing(d, k) + es);
    }
  }

  /** Appending a list in two pieces is appending it at once. */
  lemma AppendAllSplit(d: Deals, k: string, es1: seq<Entry>, es2: seq<Entry>)
    ensures AppendAll(AppendAll(d, k, es1), k, es2) == AppendAll(d, k, es1 + es2)
  {
    if |es1| == 0 {
      assert es1 + es2 == es2;
    } else if |es2| == 0 {
      assert es1 + es2 == es1;
    } else {
      var old1 := Existing(d, k);
      var d1 := Put(d, k, old1 + es1);
      calc {
        AppendAll(AppendAll(d, k, es1), k, es2);
        AppendAll(d1, k, es2);
        { assert Existing(d1, k) == old1 + es1; }
        Put(d1, k, old1 + es1 + es2);
        { PutTwice(d, k, old1 + es1, old1 + es1 + es2); }
        Put(d, k, old1 + es1 + es2);
        { assert old1 + es1 + es2 == old1 + (es1 + es2); }
        AppendAll(d, k, es1 + es2);
      }
    }
  }

  /** Writing a key twice is writing it once with the second value. */
  lemma {:induction false} PutTwice(d: Deals, k: string, es1: seq<Entry>, es2: seq<Entry>)
    ensures Put(Put(d, k, es1), k, es2) == Put(d, k, es2)
  {
    if |d| > 0 && d[0].0 != k {
      PutTwice(d[1..], k, es1, es2);
      assert Put(d, k, es1)[1..] == Put(d[1..], k, es1);
    }
  }

  /** Policy of APIs/deals_scratch_citywise_v2.py: each write replaces the key's list. */
  function Overwrite(d: Deals, ws: seq<Write>): Deals
  {
    if |ws| == 0 then d
    else
      var w := ws[|ws| - 1];
      Put(Overwrite(d, ws[..|ws| - 1]), w.0, w.1)
  }

  /** Policy of deal_scratch_citywise.py and APIs/deals_scratch_api_v1.1.py: each write extends the key's list. */
  function AppendEach(d: Deals, ws: seq<Write>): Deals
  {
    if |ws| == 0 then d
    else
      var w := ws[|ws| - 1];
      AppendAll(AppendEach(d, ws[..|ws| - 1]), w.0, w.1)
  }

  /** One more write under overwrite-by-name is one more `d[k] = es`. */
  lemma OverwriteSnoc(d: Deals, ws: seq<Write>, w: Write)
    ensures Overwrite(d, ws + [w]) == Put(Overwrite(d, ws), w.0, w.1)
  {
    assert (ws + [w])[..|ws|] == ws;
  }

  /** Under overwrite-by-name every item of the dict is an item of `d` or one of the writes. */
  lemma {:induction false} OverwriteHoldsWrites(d: Deals, ws: seq<Write>)
    ensures forall p :: p in Overwrite(d, ws) ==> p in d || p in ws
  {
    if |ws| > 0 {
      var init := ws[..|ws| - 1];
      OverwriteHoldsWrites(d, init);
      PutHolds(Overwrite(d, init), ws[|ws| - 1].0, ws[|ws| - 1].1);
      assert forall p :: p in init ==> p in ws;
    }
  }

  /** Two dicts with the same keys in the same order and the same value under every key are equal. */
  lemma {:induction false} DealsExtensional(a: Deals, b: Deals)
    requires Names(a) == Names(b) && UniqueNames(a)
    requires forall k :: Lookup(a, k) == Lookup(b, k)
    ensures a == b
  {
    if |a| > 0 {
      assert a[0].0 == b[0].0;
      assert Lookup(a, a[0].0) == Some(a[0].1);
      assert Lookup(b, a[0].0) == Some(b[0].1);
      var n := Names(a);
      assert Names(a[1..]) == n[1..];
      assert Names(b[1..]) == n[1..];
      forall k ensures Lookup(a[1..], k) == Lookup(b[1..], k) {
        if k == a[0].0 {
          LookupNone(a[1..], k);
          LookupNone(b[1..], k);
          assert Lookup(a[1..], k).None? && Lookup(b[1..], k).None?;
        } else {
          assert Lookup(a, k) == Lookup(a[1..], k);
          assert Lookup(b, k) == Lookup(b[1..], k);
        }
      }
      DealsExtensional(a[1..], b[1..]);
    }
  }

  /** `d[k] = es` keeps every key and has `k` as a key. */
  lemma PutKeys(d: Deals, k: string, es: seq<Entry>)
    ensures k in Names(Put(d, k, es))
    ensures forall j :: j in Names(d) ==> j in Names(Put(d, k, es))
  {
    PutNames(d, k, es);
  }

  /** Every write's key is a key of the dict after overwrite-by-name. */
  lemma {:induction false} OverwriteNames(d: Deals, ws: seq<Write>)
    ensures forall i :: 0 <= i < |ws| ==> ws[i].0 in Names(Overwrite(d, ws))
    ensures forall k :: k in Names(d) ==> k in Names(Overwrite(d, ws))
  {
    if |ws| > 0 {
      var init := ws[..|ws| - 1];
      var w := ws[|ws| - 1];
      var prev := Overwrite(d, init);
      OverwriteNames(d, init);
      PutKeys(prev, w.0, w.1);
      assert Overwrite(d, ws) == Put(prev, w.0, w.1);
      forall i | 0 <= i < |ws| ensures ws[i].0 in Names(Overwrite(d, ws)) {
        if i < |init| {
          assert init[i] == ws[i];
        }
      }
    }
  }

  /** Overwriting with writes whose keys all exist already keeps the key order. */
  lemma {:induction false} OverwriteKeepsNames(d: Deals, ws: seq<Write>)
    requires forall i :: 0 <= i < |ws| ==> ws[i].0 in Names(d)
    ensures Names(Overwrite(d, ws)) == Names(d)
  {
    if |ws| > 0 {
      var init := ws[..|ws| - 1];
      var w := ws[|ws| - 1];
      assert forall i :: 0 <= i < |init| ==> init[i] == ws[i];
      OverwriteKeepsNames(d, init);
      PutNames(Overwrite(d, init), w.0, w.1);
    }
  }

  /** Overwrite-by-name is idempotent: replaying the same writes on its result changes nothing. */
  lemma OverwriteIdempotent(d: Deals, ws: seq<Write>)
    requires UniqueNames(d)
    ensures Overwrite(Overwrite(d, ws), ws) == Overwrite(d, ws)
  {
    var once := Overwrite(d, ws);
    OverwriteNames(d, ws);
    OverwriteKeepsNames(once, ws);
    PoliciesKeepUnique(d, ws);
    PoliciesKeepUnique(once, ws);
    forall k ensures Lookup(Overwrite(once, ws), k) == Lookup(once, k) {
      OverwriteLastWins(once, ws, k);
      OverwriteLastWins(d, ws, k);
    }
    DealsExtensional(Overwrite(once, ws), once);
  }

  /** The value of the last write to `k`; an independent reading of "the last write wins". */
  function LastWrite(ws: seq<Write>, k: string): (r: Option<seq<Entry>>)
    ensures r.Some? ==> exists i :: 0 <= i < |ws| && ws[i] == (k, r.value)
  {
    if |ws| == 0 then None
    else if ws[|ws| - 1].0 == k then Some(ws[|ws| - 1].1)
    else LastWrite(ws[..|ws| - 1], k)
  }

  /** Under overwrite-by-name the dict holds, for each name, the value of its last write. */
  lemma {:induction false} OverwriteLastWins(d: Deals, ws: seq<Write>, k: string)
    ensures Lookup(Overwrite(d, ws), k) == if LastWrite(ws, k).Some? then LastWrite(ws, k) else Lookup(d, k)
  {
    if |ws| > 0 {
      OverwriteLastWins(d, ws[..|ws| - 1], k);
    }
  }

  /** The concatenation, in write order, of every list written to `k`. */
  function WrittenTo(ws: seq<Write>, k: string): seq<Entry>
  {
    if |ws| == 0 then []
    else WrittenTo(ws[..|ws| - 1], k) + (if ws[|ws| - 1].0 == k then ws[|ws| - 1].1 else [])
  }

  /** Every entry written to `k` comes from one of the writes to `k`. */
  lemma {:induction false} WrittenToFrom(ws: seq<Write>, k: string)
    ensures forall e :: e in WrittenTo(ws, k) ==> exists i :: 0 <= i < |ws| && ws[i].0 == k && e in ws[i].1
  {
    if |ws| > 0 {
      var init := ws[..|ws| - 1];
      WrittenToFrom(init, k);
      forall e | e in WrittenTo(ws, k) ensures exists i :: 0 <= i < |ws| && ws[i].0 == k && e in ws[i].1 {
        if e in WrittenTo(init, k) {
          var i :| 0 <= i < |init| && init[i].0 == k && e in init[i].1;
          assert ws[i] == init[i];
        } else {
          assert ws[|ws| - 1].0 == k && e in ws[|ws| - 1].1;
        }
      }
    }
  }

  /** Under append-by-name, a name's list is everything written to it, in visit order; a name no write touched is absent. */
  lemma {:induction false} AppendEachCollects(ws: seq<Write>, k: string)
    ensures Lookup(AppendEach([], ws), k) == if |WrittenTo(ws, k)| == 0 then None else Some(WrittenTo(ws, k))
  {
    if |ws| > 0 {
      var init := ws[..|ws| - 1];
      AppendEachCollects(init, k);
      var w := ws[|ws| - 1];
      if w.0 == k && |w.1| > 0 {
        assert Existing(AppendEach([], init), k) == WrittenTo(init, k);
      } else {
        assert WrittenTo(ws, k) == WrittenTo(init, k) + (if w.0 == k then w.1 else []);
        assert WrittenTo(ws, k) == WrittenTo(init, k);
      }
    }
  }

  /** Both policies keep the keys distinct. */
  lemma {:induction false} PoliciesKeepUnique(d: Deals, ws: seq<Write>)
    requires UniqueNames(d)
    ensures UniqueNames(Overwrite(d, ws)) && UniqueNames(AppendEach(d, ws))
  {
    if |ws| > 0 {
      var w := ws[|ws| - 1];
      PoliciesKeepUnique(d, ws[..|ws| - 1]);
      PutKeepsUnique(Overwrite(d, ws[..|ws| - 1]), w.0, w.1);
      var a := AppendEach(d, ws[..|ws| - 1]);
      PutKeepsUnique(a, w.0, Existing(a, w.0) + w.1);
    }
  }

  /** Every key the dict holds has been written (and was in `d` or some write). */
  lemma {:induction false} PoliciesStoreWrittenNames(d: Deals, ws: seq<Write>, k: string)
    requires k in Names(Overwrite(d, ws)) || k in Names(AppendEach(d, ws))
    ensures k in Names(d) || exists i :: 0 <= i < |ws| && ws[i].0 == k
  {
    if |ws| > 0 && k !in Names(d) {
      var init := ws[..|ws| - 1];
      if k == ws[|ws| - 1].0 {
        assert ws[|ws| - 1].0 == k;
      } else {
        var w := ws[|ws| - 1];
        assert Lookup(Overwrite(d, ws), k) == Lookup(Overwrite(d, init), k);
        AppendAllOthers(AppendEach(d, init), w.0, w.1, k);
        assert Lookup(AppendEach(d, ws), k) == Lookup(AppendEach(d, init), k);
        LookupNone(Overwrite(d, ws), k);
        LookupNone(Overwrite(d, init), k);
        LookupNone(AppendEach(d, ws), k);
        LookupNone(AppendEach(d, init), k);
        PoliciesStoreWrittenNames(d, init, k);
        var i :| 0 <= i < |init| && init[i].0 == k;
        assert ws[i] == init[i];
      }
    }
  }

  /** The number of entries across the dict. */
  function TotalEntries(d: Deals): nat {
    if |d| == 0 then 0 else TotalEntries(d[..|d| - 1]) + |d[|d| - 1].1|
  }

  /** The number of entries across a list of writes. */
  function TotalWritten(ws: seq<Write>): nat {
    if |ws| == 0 then 0 else TotalWritten(ws[..|ws| - 1]) + |ws[|ws| - 1].1|
  }

  /** `TotalEntries` splits over concatenation. */
  lemma {:induction false} TotalEntriesConcat(a: Deals, b: Deals)
    ensures TotalEntries(a + b) == TotalEntries(a) + TotalEntries(b)
  {
    if |b| == 0 {
      assert a + b == a;
    } else {
      TotalEntriesConcat(a, b[..|b| - 1]);
      assert (a + b)[..|a + b| - 1] == a + b[..|b| - 1];
    }
  }

  /** Replacing one key's list changes the entry total by the difference of the two lists. */
  lemma {:induction false} PutTotal(d: Deals, k: string, es: seq<Entry>)
    ensures TotalEntries(Put(d, k, es)) + |Existing(d, k)| == TotalEntries(d) + |es|
  {
    if |d| > 0 {
      TotalEntriesConcat([d[0]], d[1..]);
      assert d == [d[0]] + d[1..];
      assert TotalEntries([d[0]]) == |d[0].1| by { assert [d[0]][..0] == []; }
      if d[0].0 == k {
        TotalEntriesConcat([(k, es)], d[1..]);
        assert TotalEntries([(k, es)]) == |es| by { assert [(k, es)][..0] == []; }
      } else {
        PutTotal(d[1..], k, es);
        TotalEntriesConcat([d[0]], Put(d[1..], k, es));
      }
    }
  }

  /** One more write under append-by-name is one more extension of its key's list. */
  lemma AppendEachSnoc(d: Deals, ws: seq<Write>, w: Write)
    ensures AppendEach(d, ws + [w]) == AppendAll(AppendEach(d, ws), w.0, w.1)
  {
    assert (ws + [w])[..|ws|] == ws;
  }

  /** Folding writes from the front: the first write is applied first. */
  lemma {:induction false} AppendEachCons(d: Deals, w: Write, ws: seq<Write>)
    ensures AppendEach(d, [w] + ws) == AppendEach(AppendAll(d, w.0, w.1), ws)
  {
    if |ws| == 0 {
      assert ([w] + ws)[..0] == [];
      assert [w] + ws == [w];
    } else {
      var init := ws[..|ws| - 1];
      var last := ws[|ws| - 1];
      var all := [w] + ws;
      AppendEachCons(d, w, init);
      assert all[..|all| - 1] == [w] + init;
      assert all[|all| - 1] == last;
      calc {
        AppendEach(d, all);
        AppendAll(AppendEach(d, [w] + init), last.0, last.1);
        AppendAll(AppendEach(AppendAll(d, w.0, w.1), init), last.0, last.1);
        AppendEach(AppendAll(d, w.0, w.1), ws);
      }
    }
  }

  /** Append-by-name loses no entry: the dict holds exactly as many entries as were written. */
  lemma {:induction false} AppendEachTotal(d: Deals, ws: seq<Write>)
    ensures TotalEntries(AppendEach(d, ws)) == TotalEntries(d) + TotalWritten(ws)
  {
    if |ws| > 0 {
      var w := ws[|ws| - 1];
      var a := AppendEach(d, ws[..|ws| - 1]);
      AppendEachTotal(d, ws[..|ws| - 1]);
      if |w.1| > 0 {
        PutTotal(a, w.0, Existing(a, w.0) + w.1);
      }
    }
  }

  /**
   * A name visited twice in a row, after any earlier visits: overwrite-by-name
   * keeps only the second list, append-by-name keeps both lists in order.
   */
  lemma OverwriteDropsEarlierList(d: Deals, ws: seq<Write>, k: string, es1: seq<Entry>, es2: seq<Entry>)
    ensures Overwrite(d, ws + [(k, es1), (k, es2)]) == Put(Overwrite(d, ws), k, es2)
    ensures AppendEach(d, ws + [(k, es1), (k, es2)]) == AppendAll(AppendEach(d, ws), k, es1 + es2)
  {
    var all := ws + [(k, es1), (k, es2)];
    assert all[..|all| - 1] == ws + [(k, es1)];
    assert (ws + [(k, es1)])[..|ws|] == ws;
    PutTwice(Overwrite(d, ws), k, es1, es2);
    AppendAllSplit(AppendEach(d, ws), k, es1, es2);
  }

  /** One CSV row: `[city, deal name, discount, ", ".join(cards)]`. */
  function Row(city: string, name: string, e: Entry): seq<string> {
    [city, name, e.discount, JoinCards(e.cards)]
  }

  /** The "Applicable Cards" cell: `", ".join(cards)`. */
  function JoinCards(cards: seq<string>): string {
    Join(", ", cards)
  }

  /** The rows of one deal's entries, in entry order. */
  function EntryRows(city: string, name: string, es: seq<Entry>): (r: seq<seq<string>>)
    ensures |r| == |es|
    ensures forall j :: 0 <= j < |es| ==> r[j] == Row(city, name, es[j])
  {
    if |es| == 0 then [] else EntryRows(city, name, es[..|es| - 1]) + [Row(city, name, es[|es| - 1])]
  }

  /** The nested loop over `deals.items()` and each entry list: one row per (deal, entry), in dict order. */
  function Flatten(city: string, d: Deals): (r: seq<seq<string>>)
    ensures |r| == TotalEntries(d)
  {
    if |d| == 0 then []
    else Flatten(city, d[..|d| - 1]) + EntryRows(city, d[|d| - 1].0, d[|d| - 1].1)
  }

  /** Flattening splits over concatenation. */
  lemma {:induction false} FlattenConcat(city: string, a: Deals, b: Deals)
    ensures Flatten(city, a + b) == Flatten(city, a) + Flatten(city, b)
  {
    if |b| == 0 {
      assert a + b == a;
    } else {
      var init := b[..|b| - 1];
      var last := b[|b| - 1];
      FlattenConcat(city, a, init);
      assert (a + b)[..|a + b| - 1] == a + init;
      assert (a + b)[|a + b| - 1] == last;
      var tail := EntryRows(city, last.0, last.1);
      assert Flatten(city, a + b) == Flatten(city, a + init) + tail;
      assert Flatten(city, b) == Flatten(city, init) + tail;
    }
  }

  /**
   * Entry `j` of deal `i` is the row just after the rows of deals `0..i` and
   * the first `j` entries of deal `i`; so every (deal, entry) has its row.
   */
  lemma FlattenAt(city: string, d: Deals, i: nat, j: nat)
    requires i < |d| && j < |d[i].1|
    ensures TotalEntries(d[..i]) + j < |Flatten(city, d)|
    ensures Flatten(city, d)[TotalEntries(d[..i]) + j] == Row(city, d[i].0, d[i].1[j])
  {
    assert d == d[..i] + [d[i]] + d[i + 1..];
    FlattenConcat(city, d[..i] + [d[i]], d[i + 1..]);
    FlattenConcat(city, d[..i], [d[i]]);
    assert [d[i]][..0] == [];
    assert Flatten(city, [d[i]]) == EntryRows(city, d[i].0, d[i].1);
  }

  /** Every flattened row is the row of some entry of some deal. */
  lemma {:induction false} FlattenRowsFrom(city: string, d: Deals, row: seq<string>)
    requires row in Flatten(city, d)
    ensures exists i, j :: 0 <= i < |d| && 0 <= j < |d[i].1| && row == Row(city, d[i].0, d[i].1[j])
  {
    var init := d[..|d| - 1];
    var last := d[|d| - 1];
    if row in Flatten(city, init) {
      FlattenRowsFrom(city, init, row);
      var i, j :| 0 <= i < |init| && 0 <= j < |init[i].1| && row == Row(city, init[i].0, init[i].1[j]);
      assert d[i] == init[i];
    } else {
      var rows := EntryRows(city, last.0, last.1);
      var j :| 0 <= j < |rows| && rows[j] == row;
      assert row == Row(city, d[|d| - 1].0, d[|d| - 1].1[j]);
    }
  }

  /** A stored deal with a non-empty name and only kept entries (non-empty text, non-empty duplicate-free cards). */
  predicate KeptDeal(p: Write) {
    |p.0| > 0 && forall e :: e in p.1 ==> KeptEntry(e)
  }

  /** A data row: the city, a non-empty deal name, non-empty discount text and a joined non-empty, duplicate-free card list. */
  ghost predicate KeptRow(city: string, row: seq<string>) {
    && |row| == 4 && row[0] == city && |row[1]| > 0 && |row[2]| > 0
    && exists cards: seq<string> :: |cards| > 0 && NoDup(cards) && row[3] == JoinCards(cards)
  }

  /** Flattening a dict of kept deals gives only kept rows. */
  lemma FlattenKept(city: string, d: Deals)
    requires forall p :: p in d ==> KeptDeal(p)
    ensures forall row :: row in Flatten(city, d) ==> KeptRow(city, row)
  {
    forall row | row in Flatten(city, d) ensures KeptRow(city, row) {
      FlattenRowsFrom(city, d, row);
      var i, j :| 0 <= i < |d| && 0 <= j < |d[i].1| && row == Row(city, d[i].0, d[i].1[j]);
      assert d[i] in d;
      var e := d[i].1[j];
      assert e in d[i].1;
      assert KeptEntry(e);
      assert row[3] == JoinCards(e.cards);
    }
  }

  /**
   * The CSV writer loop: the header, then for each deal in dict order and
   * each of its entries in order, one row.
   */
  method WriteRows(header: seq<string>, city: string, d: Deals) returns (rows: seq<seq<string>>)
    ensures rows == [header] + Flatten(city, d)
    ensures |rows| == 1 + TotalEntries(d)
  {
    rows := [header];
    var i := 0;
    while i < |d|
      invariant 0 <= i <= |d|
      invariant rows == [header] + Flatten(city, d[..i])
    {
      var (name, entries) := d[i];
      var j := 0;
      while j < |entries|
        invariant 0 <= j <= |entries|
        invariant rows == [header] + Flatten(city, d[..i]) + EntryRows(city, name, entries[..j])
      {
        rows := rows + [Row(city, name, entries[j])];
        assert entries[..j + 1][..j] == entries[..j];
        j := j + 1;
      }
      assert entries[..j] == entries;
      assert d[..i + 1][..i] == d[..i];
      i := i + 1;
    }
    assert d[..i] == d;
  }
}
