/**
 * `save_to_csv` as the scrapers write it: nothing happens for an empty
 * list; otherwise the header comes from the keys of the first record and
 * `csv.DictWriter` writes the header and then one line per record. A
 * record key that is not in the header makes `DictWriter` raise
 * `ValueError` when it reaches that record; a header column the record
 * lacks is written as "" (the default `restval`).
 */
module Csv {
  import opened Wrappers
  import opened Text

  /** A Python dict of strings with its insertion order: (key, value) pairs. */
  type Record = seq<(string, string)>

  /** `d.keys()`, in order. */
  function Keys(r: Record): (ks: seq<string>)
    ensures |ks| == |r| && forall i :: 0 <= i < |r| ==> ks[i] == r[i].0
  {
    seq(|r|, i requires 0 <= i < |r| => r[i].0)
  }

  /** `d.values()`, in order. */
  function Values(r: Record): (vs: seq<string>)
    ensures |vs| == |r| && forall i :: 0 <= i < |r| ==> vs[i] == r[i].1
  {
    seq(|r|, i requires 0 <= i < |r| => r[i].1)
  }

  /** The list of dicts a scraper builds, one per scraped item, in order. */
  function MapRecords<T>(ds: seq<T>, recordOf: T -> Record): (rs: seq<Record>)
    ensures |rs| == |ds| && forall i :: 0 <= i < |ds| ==> rs[i] == recordOf(ds[i])
  {
    seq(|ds|, i requires 0 <= i < |ds| => recordOf(ds[i]))
  }

  /** A dict holds each key once. */
  predicate IsDict(r: Record) {
    NoDup(Keys(r))
  }

  /** `[k for k in ks if k != x]`. */
  function Drop(ks: seq<string>, x: string): seq<string> {
    if |ks| == 0 then []
    else Drop(ks[..|ks| - 1], x) + (if ks[|ks| - 1] == x then [] else [ks[|ks| - 1]])
  }

  /** The comprehension is a filter: it distributes over concatenation. */
  lemma {:induction false} DropConcat(a: seq<string>, b: seq<string>, x: string)
    ensures Drop(a + b, x) == Drop(a, x) + Drop(b, x)
  {
    if |b| == 0 {
      assert a + b == a;
    } else {
      var n := |b| - 1;
      assert (a + b)[..|a + b| - 1] == a + b[..n];
      DropConcat(a, b[..n], x);
    }
  }

  /** The comprehension keeps exactly the keys other than `x`, and no key twice if there was none twice. */
  lemma {:induction false} DropMembers(ks: seq<string>, x: string)
    ensures forall y :: y in Drop(ks, x) <==> y in ks && y != x
    ensures |Drop(ks, x)| <= |ks|
    ensures NoDup(ks) ==> NoDup(Drop(ks, x))
  {
    if |ks| > 0 {
      var init := ks[..|ks| - 1];
      var last := ks[|ks| - 1];
      DropMembers(init, x);
      assert ks == init + [last];
      if NoDup(ks) {
        assert NoDup(init) by {
          forall i, j | 0 <= i < j < |init| ensures init[i] != init[j] {
            assert init[i] == ks[i] && init[j] == ks[j];
          }
        }
        assert last !in init by {
          forall i | 0 <= i < |init| ensures init[i] != last {
            assert init[i] == ks[i];
          }
        }
      }
    }
  }

  /** The header of the citywise scrapers: `['city']` and then the first record's other keys, in order. */
  function CityFirstHeader(first: Record): (h: seq<string>)
    ensures |h| > 0 && h[0] == "city"
  {
    ["city"] + Drop(Keys(first), "city")
  }

  /**
   * The citywise header holds "city" once, at the front, and every key of
   * the first record; for a dict it repeats no column.
   */
  lemma CityFirstHeaderSpec(first: Record)
    ensures "city" !in CityFirstHeader(first)[1..]
    ensures forall k :: k in CityFirstHeader(first) <==> k == "city" || k in Keys(first)
    ensures IsDict(first) ==> NoDup(CityFirstHeader(first))
  {
    var h := CityFirstHeader(first);
    DropMembers(Keys(first), "city");
    assert h[1..] == Drop(Keys(first), "city");
  }

  /** A record whose first key is "city" gets the plain key header: the two rules then agree. */
  lemma CityFirstWhenCityLeads(first: Record)
    requires IsDict(first) && |first| > 0 && first[0].0 == "city"
    ensures CityFirstHeader(first) == Keys(first)
  {
    var ks := Keys(first);
    assert ks == [ks[0]] + ks[1..];
    DropConcat([ks[0]], ks[1..], "city");
    assert Drop([ks[0]], "city") == [] by {
      assert [ks[0]][..0] == [];
    }
    DropNone(ks[1..], "city");
  }

  /** Dropping a key that is absent changes nothing. */
  lemma {:induction false} DropNone(ks: seq<string>, x: string)
    requires x !in ks
    ensures Drop(ks, x) == ks
  {
    if |ks| > 0 {
      DropNone(ks[..|ks| - 1], x);
      assert ks[..|ks| - 1] + [ks[|ks| - 1]] == ks;
    }
  }

  /** Which header a scraper uses. */
  datatype HeaderRule =
    | CityFirst   // ['city'] + the first record's other keys
    | FirstKeys   // deals[0].keys()

  /** The header a rule derives from the first record. */
  function HeaderOf(rule: HeaderRule, first: Record): (h: seq<string>)
    ensures rule.FirstKeys? ==> h == Keys(first)
    ensures rule.CityFirst? ==> h == CityFirstHeader(first)
  {
    match rule
    case CityFirst => CityFirstHeader(first)
    case FirstKeys => Keys(first)
  }

  /** `d.get(k)`: the value stored under `k`. */
  function Get(r: Record, k: string): (v: Option<string>)
    ensures v.None? <==> k !in Keys(r)
  {
    if |r| == 0 then None
    else if r[0].0 == k then Some(r[0].1)
    else
      assert Keys(r[1..]) == Keys(r)[1..];
      Get(r[1..], k)
  }

  /** In a dict, the value found under the `i`-th key is the `i`-th value. */
  lemma {:induction false} GetAt(r: Record, i: nat)
    requires IsDict(r) && i < |r|
    ensures Get(r, r[i].0) == Some(r[i].1)
  {
    if i > 0 {
      assert Keys(r)[0] != Keys(r)[i];
      assert IsDict(r[1..]) by {
        var ks := Keys(r[1..]);
        forall a, b | 0 <= a < b < |ks| ensures ks[a] != ks[b] {
          assert ks[a] == Keys(r)[a + 1] && ks[b] == Keys(r)[b + 1];
        }
      }
      GetAt(r[1..], i - 1);
    }
  }

  /** The line `DictWriter` writes for a record: its value in each column, "" where it has none. */
  function RowOf(header: seq<string>, r: Record): (line: seq<string>)
    ensures |line| == |header|
  {
    seq(|header|, i requires 0 <= i < |header| => match Get(r, header[i]) case None => "" case Some(v) => v)
  }

  /** For a dict written under its own keys, the line is its values in order. */
  lemma RowOfOwnKeys(r: Record)
    requires IsDict(r)
    ensures RowOf(Keys(r), r) == Values(r)
  {
    forall i | 0 <= i < |r| ensures RowOf(Keys(r), r)[i] == Values(r)[i] {
      GetAt(r, i);
    }
  }

  /** The first key of the record that is not a column, the one `DictWriter` rejects. */
  function Extra(header: seq<string>, r: Record): (e: Option<string>)
    ensures e.None? <==> forall k :: k in Keys(r) ==> k in header
    ensures e.Some? ==> e.value in Keys(r) && e.value !in header
  {
    if |r| == 0 then None
    else if r[0].0 !in header then Some(r[0].0)
    else
      assert Keys(r) == [r[0].0] + Keys(r[1..]);
      Extra(header, r[1..])
  }

  /** `writer.writerows(deals)`: the lines written, and the key that stopped it if a record was rejected. */
  function Emit(header: seq<string>, deals: seq<Record>): (seq<seq<string>>, Option<string>) {
    if |deals| == 0 then ([], None)
    else
      match Extra(header, deals[0])
      case Some(k) => ([], Some(k))
      case None =>
        var rest := Emit(header, deals[1..]);
        ([RowOf(header, deals[0])] + rest.0, rest.1)
  }

  /**
   * `writerows` writes one line per record, in order, up to the first record
   * with a key outside the header, and reports that key; with none such it
   * writes every record.
   */
  lemma {:induction false} EmitSpec(header: seq<string>, deals: seq<Record>)
    ensures |Emit(header, deals).0| <= |deals|
    ensures forall j :: 0 <= j < |Emit(header, deals).0| ==>
              Extra(header, deals[j]).None? && Emit(header, deals).0[j] == RowOf(header, deals[j])
    ensures Emit(header, deals).1.None? ==> |Emit(header, deals).0| == |deals|
    ensures Emit(header, deals).1.Some? ==>
              |Emit(header, deals).0| < |deals| && Extra(header, deals[|Emit(header, deals).0|]) == Emit(header, deals).1
  {
    if |deals| > 0 && Extra(header, deals[0]).None? {
      EmitSpec(header, deals[1..]);
      var rest := Emit(header, deals[1..]);
      var lines := [RowOf(header, deals[0])] + rest.0;
      forall j | 0 <= j < |lines| ensures Extra(header, deals[j]).None? && lines[j] == RowOf(header, deals[j]) {
        if j > 0 {
          assert lines[j] == rest.0[j - 1] && deals[j] == deals[1..][j - 1];
        }
      }
    }
  }

  /** What one call of `save_to_csv` leaves in the file. */
  datatype SaveOutcome =
    | NothingToSave
    | Written(lines: seq<seq<string>>)
    | ExtraField(lines: seq<seq<string>>, key: string)   // `ValueError` after these lines

  /** Either rule's header names every key of the first record. */
  lemma HeaderCovers(rule: HeaderRule, first: Record)
    ensures forall k :: k in Keys(first) ==> k in HeaderOf(rule, first)
  {
    if rule.CityFirst? {
      CityFirstHeaderSpec(first);
    }
  }

  /** `save_to_csv(deals)` under a header rule. */
  function Save(rule: HeaderRule, deals: seq<Record>): (out: SaveOutcome)
    ensures out.NothingToSave? <==> |deals| == 0
    ensures !out.NothingToSave? ==> |out.lines| > 0 && out.lines[0] == HeaderOf(rule, deals[0])
  {
    if |deals| == 0 then NothingToSave
    else
      var header := HeaderOf(rule, deals[0]);
      var (lines, e) := Emit(header, deals);
      match e
      case None => Written([header] + lines)
      case Some(k) => ExtraField([header] + lines, k)
  }

  /** Every record has the keys of the first one, in the same order (the scrapers build them all alike). */
  predicate SameKeys(deals: seq<Record>) {
    forall i :: 0 <= i < |deals| ==> Keys(deals[i]) == Keys(deals[0])
  }

  /**
   * Records that all have the first one's keys are all written, under
   * either rule: the header and then one line per record, in order.
   */
  lemma SaveSameKeys(rule: HeaderRule, deals: seq<Record>)
    requires |deals| > 0 && SameKeys(deals)
    ensures Save(rule, deals).Written?
    ensures |Save(rule, deals).lines| == 1 + |deals|
    ensures forall i :: 0 <= i < |deals| ==> Save(rule, deals).lines[i + 1] == RowOf(HeaderOf(rule, deals[0]), deals[i])
  {
    var header := HeaderOf(rule, deals[0]);
    HeaderCovers(rule, deals[0]);
    forall i | 0 <= i < |deals| ensures Extra(header, deals[i]).None? {
      assert Keys(deals[i]) == Keys(deals[0]);
    }
    EmitSpec(header, deals);
    var lines := Emit(header, deals).0;
    assert Save(rule, deals).lines == [header] + lines;
  }

  /** A record that is not written stops the file: no line of a later record follows. */
  lemma SaveStopsAtExtra(rule: HeaderRule, deals: seq<Record>)
    requires |deals| > 0
    ensures Save(rule, deals).ExtraField? <==> exists i :: 0 <= i < |deals| && Extra(HeaderOf(rule, deals[0]), deals[i]).Some?
    ensures Save(rule, deals).ExtraField? ==>
              |Save(rule, deals).lines| <= |deals|
              && Extra(HeaderOf(rule, deals[0]), deals[|Save(rule, deals).lines| - 1]) == Some(Save(rule, deals).key)
  {
    var header := HeaderOf(rule, deals[0]);
    EmitSpec(header, deals);
    var (lines, e) := Emit(header, deals);
    if e.None? {
      forall i | 0 <= i < |deals| ensures Extra(header, deals[i]).None? {
        assert Extra(header, deals[i]).None? && lines[i] == RowOf(header, deals[i]);
      }
    }
  }
}
