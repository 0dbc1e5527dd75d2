/**
 * The leaderboard endpoint: read the precomputed `leaderboard` view, or, when that relation
 * does not exist, group raw `quiz_attempts` rows by user, keep each user's best row, sort by
 * best score and truncate to the requested limit.
 */
module Leaderboard {
  import opened Js

  /** One row of the fallback query over `quiz_attempts`. */
  datatype AttemptRow = AttemptRow(
    userMobile: Nullable,
    userEmail: Nullable,
    userName: Nullable,
    metaScore: real,
    timeTakenSeconds: int,
    createdAt: string)

  /** One leaderboard entry, as the fallback builds it. */
  datatype Entry = Entry(
    userMobile: Nullable,
    userEmail: Nullable,
    userName: Nullable,
    bestScore: real,
    bestTime: int,
    lastAttempt: string)

  /** The grouping key `${user_mobile}-${user_email}-${user_name}`. */
  function Key(mobile: Nullable, email: Nullable, name: Nullable): (k: string)
    ensures |k| == |Interpolate(mobile)| + |Interpolate(email)| + |Interpolate(name)| + 2
  {
    Interpolate(mobile) + "-" + Interpolate(email) + "-" + Interpolate(name)
  }

  function RowKey(r: AttemptRow): string { Key(r.userMobile, r.userEmail, r.userName) }

  function EntryKey(e: Entry): string { Key(e.userMobile, e.userEmail, e.userName) }

  /** The entry stored for a row: its identity, its score as best score, its time and its timestamp. */
  function ToEntry(r: AttemptRow): (e: Entry)
    ensures EntryKey(e) == RowKey(r)
  {
    Entry(r.userMobile, r.userEmail, r.userName, r.metaScore, r.timeTakenSeconds, r.createdAt)
  }

  /**
   * Keys are plain concatenations, so two different identities can share one: a mobile
   * number containing the separator groups with a different email.
   */
  lemma KeysCanCollide()
    ensures Key(Str("1-2"), Str("3"), Str("A")) == Key(Str("1"), Str("2-3"), Str("A"))
    ensures Key(Null, Str("e"), Str("A")) == Key(Str("null"), Str("e"), Str("A"))
  {
  }

  ghost predicate NoDash(s: string)
  {
    forall i :: 0 <= i < |s| ==> s[i] != '-'
  }

  /** Joining at a dash can be undone when the part before the dash has no dash of its own. */
  lemma SplitAtDash(a: string, x: string, b: string, y: string)
    requires NoDash(a) && NoDash(b) && a + "-" + x == b + "-" + y
    ensures a == b && x == y
  {
    var s := a + "-" + x;
    var t := b + "-" + y;
    assert |a| == |b| by {
      assert s[|a|] == '-' && t[|b|] == '-';
    }
    assert a == s[..|a|] && b == t[..|b|];
    assert x == s[|a| + 1..] && y == t[|b| + 1..];
  }

  lemma JoinRight(a: string, b: string, c: string)
    ensures a + "-" + b + "-" + c == a + "-" + (b + "-" + c)
  {
  }

  /**
   * Collisions need a dash inside the mobile number or the email (or NULL against "null"):
   * when neither rendering holds a dash, equal keys mean equal renderings of all three fields.
   */
  lemma KeyDeterminesFields(m1: Nullable, e1: Nullable, n1: Nullable, m2: Nullable, e2: Nullable, n2: Nullable)
    requires NoDash(Interpolate(m1)) && NoDash(Interpolate(e1))
    requires NoDash(Interpolate(m2)) && NoDash(Interpolate(e2))
    requires Key(m1, e1, n1) == Key(m2, e2, n2)
    ensures Interpolate(m1) == Interpolate(m2)
    ensures Interpolate(e1) == Interpolate(e2)
    ensures Interpolate(n1) == Interpolate(n2)
  {
    JoinRight(Interpolate(m1), Interpolate(e1), Interpolate(n1));
    JoinRight(Interpolate(m2), Interpolate(e2), Interpolate(n2));
    SplitAtDash(Interpolate(m1), Interpolate(e1) + "-" + Interpolate(n1),
                Interpolate(m2), Interpolate(e2) + "-" + Interpolate(n2));
    SplitAtDash(Interpolate(e1), Interpolate(n1), Interpolate(e2), Interpolate(n2));
  }

  // ---- Reference definitions over the first n keys ----

  /** The key of every row, in row order. */
  function KeysOf(rows: seq<AttemptRow>): (keys: seq<string>)
    ensures |keys| == |rows|
  {
    if rows == [] then [] else [RowKey(rows[0])] + KeysOf(rows[1..])
  }

  lemma {:induction false} KeysOfIndex(rows: seq<AttemptRow>, i: nat)
    requires i < |rows|
    ensures KeysOf(rows)[i] == RowKey(rows[i])
  {
    if i > 0 {
      KeysOfIndex(rows[1..], i - 1);
    }
  }

  ghost predicate HasKey(keys: seq<string>, n: nat, k: string)
    requires n <= |keys|
  {
    exists j :: 0 <= j < n && keys[j] == k
  }

  ghost predicate Distinct<T>(s: seq<T>)
  {
    forall p, q :: 0 <= p < q < |s| ==> s[p] != s[q]
  }

  /** The first `n` keys, each once, in the order of first occurrence (a JS Map's key order). */
  function DistinctKeys(keys: seq<string>, n: nat): seq<string>
    requires n <= |keys|
  {
    if n == 0 then []
    else
      var prev := DistinctKeys(keys, n - 1);
      if keys[n - 1] in prev then prev else prev + [keys[n - 1]]
  }

  lemma {:induction false} DistinctKeysMembers(keys: seq<string>, n: nat, k: string)
    requires n <= |keys|
    ensures k in DistinctKeys(keys, n) <==> HasKey(keys, n, k)
  {
    if n > 0 {
      DistinctKeysMembers(keys, n - 1, k);
      if HasKey(keys, n, k) && keys[n - 1] != k {
        var j :| 0 <= j < n && keys[j] == k;
        assert HasKey(keys, n - 1, k);
      }
    }
  }

  /** No key is listed twice, and the keys listed are exactly the keys present. */
  lemma {:induction false} DistinctKeysSpec(keys: seq<string>, n: nat)
    requires n <= |keys|
    ensures Distinct(DistinctKeys(keys, n))
    ensures forall k :: k in DistinctKeys(keys, n) <==> HasKey(keys, n, k)
  {
    if n > 0 {
      DistinctKeysSpec(keys, n - 1);
    }
    forall k ensures k in DistinctKeys(keys, n) <==> HasKey(keys, n, k) {
      DistinctKeysMembers(keys, n, k);
    }
  }

  /** The index of the first of the first `n` keys equal to `k`, or `n` when there is none. */
  function FirstIndexOf(keys: seq<string>, n: nat, k: string): (r: nat)
    requires n <= |keys|
    ensures r <= n
  {
    if n == 0 then 0
    else
      var prev := FirstIndexOf(keys, n - 1, k);
      if prev < n - 1 then prev
      else if keys[n - 1] == k then n - 1
      else n
  }

  /** The first index finds the key exactly when it is present, and no earlier key equals it. */
  lemma {:induction false} FirstIndexSpec(keys: seq<string>, n: nat, k: string)
    requires n <= |keys|
    ensures FirstIndexOf(keys, n, k) < n <==> HasKey(keys, n, k)
    ensures FirstIndexOf(keys, n, k) < n ==> keys[FirstIndexOf(keys, n, k)] == k
    ensures forall j :: 0 <= j < FirstIndexOf(keys, n, k) ==> keys[j] != k
  {
    if n > 0 {
      FirstIndexSpec(keys, n - 1, k);
      if HasKey(keys, n, k) && keys[n - 1] != k {
        var j :| 0 <= j < n && keys[j] == k;
        assert HasKey(keys, n - 1, k);
      }
    }
  }

  /**
   * Among the first `n` rows, row `i` is the one the grouping keeps for its key: no row with
   * that key scores more, and every earlier row with that key scores strictly less (ties go to
   * the first seen).
   */
  ghost predicate IsFirstBest(rows: seq<AttemptRow>, keys: seq<string>, n: nat, i: int)
    requires n <= |rows| == |keys|
  {
    && 0 <= i < n
    && forall j :: 0 <= j < n && keys[j] == keys[i] ==>
         rows[j].metaScore <= rows[i].metaScore && (j < i ==> rows[j].metaScore < rows[i].metaScore)
  }

  /** The index of the first row with the highest score among the first `n` rows with key `k`, or `n`. */
  function BestIndexOf(rows: seq<AttemptRow>, keys: seq<string>, n: nat, k: string): (r: nat)
    requires n <= |rows| == |keys|
    ensures r <= n
  {
    if n == 0 then 0
    else
      var prev := BestIndexOf(rows, keys, n - 1, k);
      if keys[n - 1] == k && (prev == n - 1 || rows[prev].metaScore < rows[n - 1].metaScore) then n - 1
      else if prev == n - 1 then n
      else prev
  }

  /** The best index finds a row with the key exactly when there is one, and that row is the first best. */
  lemma {:induction false} BestIndexSpec(rows: seq<AttemptRow>, keys: seq<string>, n: nat, k: string)
    requires n <= |rows| == |keys|
    ensures BestIndexOf(rows, keys, n, k) < n <==> HasKey(keys, n, k)
    ensures BestIndexOf(rows, keys, n, k) < n ==>
      keys[BestIndexOf(rows, keys, n, k)] == k && IsFirstBest(rows, keys, n, BestIndexOf(rows, keys, n, k))
  {
    if n > 0 {
      BestIndexSpec(rows, keys, n - 1, k);
      if HasKey(keys, n, k) && keys[n - 1] != k {
        var j :| 0 <= j < n && keys[j] == k;
        assert HasKey(keys, n - 1, k);
      }
    }
  }

  lemma IndexFound(rows: seq<AttemptRow>, keys: seq<string>)
    requires |rows| == |keys|
    ensures forall k :: k in DistinctKeys(keys, |rows|) ==> BestIndexOf(rows, keys, |rows|, k) < |rows|
    ensures forall k :: k in DistinctKeys(keys, |rows|) ==> FirstIndexOf(keys, |rows|, k) < |rows|
  {
    forall k | k in DistinctKeys(keys, |rows|)
      ensures BestIndexOf(rows, keys, |rows|, k) < |rows| && FirstIndexOf(keys, |rows|, k) < |rows|
    {
      DistinctKeysMembers(keys, |rows|, k);
      BestIndexSpec(rows, keys, |rows|, k);
      FirstIndexSpec(keys, |rows|, k);
    }
  }

  /** For each distinct key in order of first occurrence, the entry of its first best row. */
  function BestPerKey(rows: seq<AttemptRow>, keys: seq<string>): seq<Entry>
    requires |rows| == |keys|
  {
    var ks := DistinctKeys(keys, |rows|);
    IndexFound(rows, keys);
    seq(|ks|, p requires 0 <= p < |ks| => ToEntry(rows[BestIndexOf(rows, keys, |rows|, ks[p])]))
  }

  /** For each distinct key in order of first occurrence, the entry of its first row. */
  function FirstPerKey(rows: seq<AttemptRow>, keys: seq<string>): seq<Entry>
    requires |rows| == |keys|
  {
    var ks := DistinctKeys(keys, |rows|);
    IndexFound(rows, keys);
    seq(|ks|, p requires 0 <= p < |ks| => ToEntry(rows[FirstIndexOf(keys, |rows|, ks[p])]))
  }

  /** The best-per-user entries in key order: what the fallback grouping is meant to produce. */
  function Grouped(rows: seq<AttemptRow>): seq<Entry>
  {
    BestPerKey(rows, KeysOf(rows))
  }

  /** The first-seen entry per user in key order: what the fallback grouping produces as written. */
  function GroupedFirstSeen(rows: seq<AttemptRow>): seq<Entry>
  {
    FirstPerKey(rows, KeysOf(rows))
  }

  /** The entry keeps the key-wise first best row of its user among all rows. */
  ghost predicate IsBestEntry(rows: seq<AttemptRow>, e: Entry)
  {
    exists i :: 0 <= i < |rows| && IsFirstBest(rows, KeysOf(rows), |rows|, i) && e == ToEntry(rows[i])
  }

  /** The keys of a sequence of entries, in order. */
  function EntryKeys(s: seq<Entry>): (ks: seq<string>)
    ensures |ks| == |s|
  {
    seq(|s|, p requires 0 <= p < |s| => EntryKey(s[p]))
  }

  /** The grouping lists one entry per distinct key, in the order keys first occur. */
  lemma GroupedKeys(rows: seq<AttemptRow>)
    ensures EntryKeys(Grouped(rows)) == DistinctKeys(KeysOf(rows), |rows|)
  {
    var keys := KeysOf(rows);
    var g := Grouped(rows);
    var ks := DistinctKeys(keys, |rows|);
    IndexFound(rows, keys);
    forall p | 0 <= p < |g| ensures EntryKeys(g)[p] == ks[p] {
      var b := BestIndexOf(rows, keys, |rows|, ks[p]);
      assert ks[p] in ks;
      BestIndexSpec(rows, keys, |rows|, ks[p]);
      KeysOfIndex(rows, b);
    }
  }

  /** Every entry of the grouping is built from the first best row of its user. */
  lemma GroupedBest(rows: seq<AttemptRow>)
    ensures forall e :: e in Grouped(rows) ==> IsBestEntry(rows, e)
  {
    var keys := KeysOf(rows);
    var g := Grouped(rows);
    var ks := DistinctKeys(keys, |rows|);
    IndexFound(rows, keys);
    forall p | 0 <= p < |g| ensures IsBestEntry(rows, g[p]) {
      assert ks[p] in ks;
      BestIndexSpec(rows, keys, |rows|, ks[p]);
    }
  }

  /** No user gets two entries, and every user with a row gets one. */
  lemma GroupedOnePerUser(rows: seq<AttemptRow>)
    ensures Distinct(EntryKeys(Grouped(rows)))
    ensures forall j :: 0 <= j < |rows| ==> KeysOf(rows)[j] in EntryKeys(Grouped(rows))
  {
    var keys := KeysOf(rows);
    GroupedKeys(rows);
    DistinctKeysSpec(keys, |rows|);
    forall j | 0 <= j < |rows| ensures keys[j] in DistinctKeys(keys, |rows|) {
      assert HasKey(keys, |rows|, keys[j]);
    }
  }

  ghost predicate SortedByMetaScore(rows: seq<AttemptRow>)
  {
    forall i, j :: 0 <= i < j < |rows| ==> rows[i].metaScore >= rows[j].metaScore
  }

  /** On rows sorted by descending score, the first row of a key is its best row. */
  lemma {:induction false} FirstIsBestWhenSorted(rows: seq<AttemptRow>, keys: seq<string>, n: nat, k: string)
    requires n <= |rows| == |keys|
    requires SortedByMetaScore(rows)
    ensures FirstIndexOf(keys, n, k) == BestIndexOf(rows, keys, n, k)
  {
    if n > 0 {
      FirstIsBestWhenSorted(rows, keys, n - 1, k);
    }
  }

  /**
   * The query behind the fallback orders rows by descending `meta_score`; on such rows keeping
   * the first-seen row per user gives the same entries as keeping the best row.
   */
  lemma FirstSeenMatchesBestWhenSorted(rows: seq<AttemptRow>)
    requires SortedByMetaScore(rows)
    ensures GroupedFirstSeen(rows) == Grouped(rows)
  {
    var keys := KeysOf(rows);
    var ks := DistinctKeys(keys, |rows|);
    forall p | 0 <= p < |ks| ensures GroupedFirstSeen(rows)[p] == Grouped(rows)[p] {
      FirstIsBestWhenSorted(rows, keys, |rows|, ks[p]);
    }
  }

  /** Keeping the first-seen row loses a later, higher score of the same user. */
  lemma FirstSeenLosesBestScore()
    ensures var rows := [
        AttemptRow(Str("1"), Null, Str("A"), 80.0, 40, "t1"),
        AttemptRow(Str("1"), Null, Str("A"), 95.0, 20, "t2")];
      && GroupedFirstSeen(rows) == [ToEntry(rows[0])]
      && Grouped(rows) == [ToEntry(rows[1])]
  {
    var rows := [
        AttemptRow(Str("1"), Null, Str("A"), 80.0, 40, "t1"),
        AttemptRow(Str("1"), Null, Str("A"), 95.0, 20, "t2")];
    var keys := KeysOf(rows);
    KeysOfIndex(rows, 0);
    KeysOfIndex(rows, 1);
    var k := keys[0];
    assert keys[1] == k;
    assert DistinctKeys(keys, 1) == [k];
    assert DistinctKeys(keys, 2) == [k];
    assert FirstIndexOf(keys, 2, k) == 0;
    assert BestIndexOf(rows, keys, 1, k) == 0;
    assert BestIndexOf(rows, keys, 2, k) == 1;
  }

  // ---- The grouping loop over a Map ----

  /** A JS number as the comparison sees it: a property that the stored object lacks is `undefined`. */
  datatype JsNumber = Undefined | Num(value: real)

  /** `a < b` in JavaScript: any comparison with `undefined` is false. */
  predicate JsLess(a: JsNumber, b: JsNumber)
  {
    a.Num? && b.Num? && a.value < b.value
  }

  /** The numeric property names the grouping loop reads from a stored entry object. */
  datatype PropertyName = BestScoreProp | BestTimeProp | MetaScoreProp

  /**
   * Reading a numeric property of a stored entry object: the object built for an attempt has
   * `best_score` and `best_time` but no `meta_score`.
   */
  function Property(e: Entry, name: PropertyName): (v: JsNumber)
    ensures v.Undefined? <==> name == MetaScoreProp
  {
    match name
    case BestScoreProp => Num(e.bestScore)
    case BestTimeProp => Num(e.bestTime as real)
    case MetaScoreProp => Undefined
  }

  /** The Map's keys are the keys of the first `i` rows, and `order` is their insertion order. */
  ghost predicate KeyOrder(keys: seq<string>, i: nat, userMap: map<string, Entry>, order: seq<string>)
    requires i <= |keys|
  {
    order == DistinctKeys(keys, i) && forall k :: k in userMap <==> k in order
  }

  /** Each stored entry is built from the first best of the first `i` rows with its key. */
  ghost predicate BestValues(rows: seq<AttemptRow>, keys: seq<string>, i: nat, userMap: map<string, Entry>)
    requires i <= |rows| == |keys|
  {
    forall k {:trigger k in userMap} | k in userMap :: BestIndexOf(rows, keys, i, k) < i && userMap[k] == ToEntry(rows[BestIndexOf(rows, keys, i, k)])
  }

  /** Each stored entry is built from the first of the first `i` rows with its key. */
  ghost predicate FirstValues(rows: seq<AttemptRow>, keys: seq<string>, i: nat, userMap: map<string, Entry>)
    requires i <= |rows| == |keys|
  {
    forall k {:trigger k in userMap} | k in userMap :: FirstIndexOf(keys, i, k) < i && userMap[k] == ToEntry(rows[FirstIndexOf(keys, i, k)])
  }

  /** Storing an entry under row `i`'s key, or keeping an existing key, moves the key order one row on. */
  lemma KeyOrderStep(keys: seq<string>, i: nat, userMap: map<string, Entry>, order: seq<string>, v: Entry)
    requires i < |keys|
    requires KeyOrder(keys, i, userMap, order)
    ensures keys[i] in userMap <==> HasKey(keys, i, keys[i])
    ensures var newOrder := if keys[i] in order then order else order + [keys[i]];
      && KeyOrder(keys, i + 1, userMap[keys[i] := v], newOrder)
      && (keys[i] in userMap ==> KeyOrder(keys, i + 1, userMap, newOrder))
  {
    DistinctKeysMembers(keys, i, keys[i]);
  }

  /**
   * Storing row `i` when its key is new or it scores strictly more than the stored entry, and
   * keeping the stored entry otherwise, keeps each user's first best row.
   */
  lemma BestValuesStep(rows: seq<AttemptRow>, keys: seq<string>, i: nat, userMap: map<string, Entry>)
    requires i < |rows| == |keys|
    requires BestValues(rows, keys, i, userMap)
    requires keys[i] in userMap <==> HasKey(keys, i, keys[i])
    ensures keys[i] !in userMap || JsLess(Property(userMap[keys[i]], BestScoreProp), Num(rows[i].metaScore)) ==>
      BestValues(rows, keys, i + 1, userMap[keys[i] := ToEntry(rows[i])])
    ensures !(keys[i] !in userMap || JsLess(Property(userMap[keys[i]], BestScoreProp), Num(rows[i].metaScore))) ==>
      BestValues(rows, keys, i + 1, userMap)
  {
    if keys[i] in userMap {
      assert Property(userMap[keys[i]], BestScoreProp) == Num(userMap[keys[i]].bestScore);
    }
    if keys[i] !in userMap || userMap[keys[i]].bestScore < rows[i].metaScore {
      BestValuesReplace(rows, keys, i, userMap);
    } else {
      BestValuesKeep(rows, keys, i, userMap);
    }
  }

  lemma BestValuesReplace(rows: seq<AttemptRow>, keys: seq<string>, i: nat, userMap: map<string, Entry>)
    requires i < |rows| == |keys|
    requires BestValues(rows, keys, i, userMap)
    requires keys[i] in userMap <==> HasKey(keys, i, keys[i])
    requires keys[i] !in userMap || userMap[keys[i]].bestScore < rows[i].metaScore
    ensures BestValues(rows, keys, i + 1, userMap[keys[i] := ToEntry(rows[i])])
  {
    var key := keys[i];
    BestIndexSpec(rows, keys, i, key);
    var newMap := userMap[key := ToEntry(rows[i])];
    forall k | k in newMap
      ensures BestIndexOf(rows, keys, i + 1, k) < i + 1 && newMap[k] == ToEntry(rows[BestIndexOf(rows, keys, i + 1, k)])
    {
      if k == key {
        assert BestIndexOf(rows, keys, i + 1, key) == i;
      } else {
        assert k in userMap;
      }
    }
  }

  lemma BestValuesKeep(rows: seq<AttemptRow>, keys: seq<string>, i: nat, userMap: map<string, Entry>)
    requires i < |rows| == |keys|
    requires BestValues(rows, keys, i, userMap)
    requires keys[i] in userMap && rows[i].metaScore <= userMap[keys[i]].bestScore
    ensures BestValues(rows, keys, i + 1, userMap)
  {
    var key := keys[i];
    forall k | k in userMap
      ensures BestIndexOf(rows, keys, i + 1, k) < i + 1 && userMap[k] == ToEntry(rows[BestIndexOf(rows, keys, i + 1, k)])
    {
      if k == key {
        assert BestIndexOf(rows, keys, i + 1, key) == BestIndexOf(rows, keys, i, key);
      }
    }
  }

  /** Storing row `i` only when its key is new keeps each user's first row. */
  lemma FirstValuesStep(rows: seq<AttemptRow>, keys: seq<string>, i: nat, userMap: map<string, Entry>)
    requires i < |rows| == |keys|
    requires FirstValues(rows, keys, i, userMap)
    requires keys[i] in userMap <==> HasKey(keys, i, keys[i])
    ensures keys[i] !in userMap ==> FirstValues(rows, keys, i + 1, userMap[keys[i] := ToEntry(rows[i])])
    ensures keys[i] in userMap ==> FirstValues(rows, keys, i + 1, userMap)
  {
    var key := keys[i];
    FirstIndexSpec(keys, i, key);
    if key !in userMap {
      var newMap := userMap[key := ToEntry(rows[i])];
      forall k | k in newMap && k != key
        ensures FirstIndexOf(keys, i + 1, k) < i + 1 && newMap[k] == ToEntry(rows[FirstIndexOf(keys, i + 1, k)])
      {
        assert k in userMap;
      }
    }
  }

  /** One pass of the intended loop body keeps both loop invariants. */
  lemma BestLoopStep(rows: seq<AttemptRow>, keys: seq<string>, i: nat, j: nat, userMap: map<string, Entry>, order: seq<string>,
                     newMap: map<string, Entry>, newOrder: seq<string>)
    requires i < |rows| == |keys| && j == i + 1
    requires KeyOrder(keys, i, userMap, order) && BestValues(rows, keys, i, userMap)
    requires newMap == if keys[i] !in userMap || JsLess(Property(userMap[keys[i]], BestScoreProp), Num(rows[i].metaScore))
      then userMap[keys[i] := ToEntry(rows[i])] else userMap
    requires newOrder == if keys[i] in order then order else order + [keys[i]]
    ensures KeyOrder(keys, j, newMap, newOrder) && BestValues(rows, keys, j, newMap)
  {
    KeyOrderStep(keys, i, userMap, order, ToEntry(rows[i]));
    BestValuesStep(rows, keys, i, userMap);
  }

  /** One pass of the loop body as written keeps both loop invariants. */
  lemma FirstLoopStep(rows: seq<AttemptRow>, keys: seq<string>, i: nat, j: nat, userMap: map<string, Entry>, order: seq<string>,
                      newMap: map<string, Entry>, newOrder: seq<string>)
    requires i < |rows| == |keys| && j == i + 1
    requires KeyOrder(keys, i, userMap, order) && FirstValues(rows, keys, i, userMap)
    requires newMap == if keys[i] !in userMap || JsLess(Property(userMap[keys[i]], MetaScoreProp), Num(rows[i].metaScore))
      then userMap[keys[i] := ToEntry(rows[i])] else userMap
    requires newOrder == if keys[i] in order then order else order + [keys[i]]
    ensures KeyOrder(keys, j, newMap, newOrder) && FirstValues(rows, keys, j, newMap)
  {
    KeyOrderStep(keys, i, userMap, order, ToEntry(rows[i]));
    FirstValuesStep(rows, keys, i, userMap);
  }

  /** `Array.from(userMap.values())`: the stored entries in the Map's insertion order. */
  function ValuesInOrder(userMap: map<string, Entry>, order: seq<string>): (vs: seq<Entry>)
    requires forall k :: k in order ==> k in userMap
    ensures |vs| == |order|
  {
    seq(|order|, p requires 0 <= p < |order| => userMap[order[p]])
  }

  /** The loop's final state lists the entries of the reference groupings. */
  lemma GroupFinal(rows: seq<AttemptRow>, keys: seq<string>, userMap: map<string, Entry>, order: seq<string>)
    requires |rows| == |keys|
    requires KeyOrder(keys, |rows|, userMap, order)
    ensures forall k :: k in order ==> k in userMap
    ensures BestValues(rows, keys, |rows|, userMap) ==> ValuesInOrder(userMap, order) == BestPerKey(rows, keys)
    ensures FirstValues(rows, keys, |rows|, userMap) ==> ValuesInOrder(userMap, order) == FirstPerKey(rows, keys)
  {
    var entries := ValuesInOrder(userMap, order);
    if BestValues(rows, keys, |rows|, userMap) {
      var expected := BestPerKey(rows, keys);
      forall p | 0 <= p < |order| ensures entries[p] == expected[p] {
        assert order[p] in userMap;
      }
    }
    if FirstValues(rows, keys, |rows|, userMap) {
      var expected := FirstPerKey(rows, keys);
      forall p | 0 <= p < |order| ensures entries[p] == expected[p] {
        assert order[p] in userMap;
      }
    }
  }

  /** The Map key of row `i`, computed as the route computes it. */
  method KeyAt(rows: seq<AttemptRow>, i: nat) returns (key: string)
    requires i < |rows|
    ensures key == KeysOf(rows)[i]
  {
    key := RowKey(rows[i]);
    KeysOfIndex(rows, i);
  }

  /**
   * The grouping loop as the route writes it: the test reads `meta_score`, which the stored
   * entry does not have, so an existing entry is never replaced.
   */
  method GroupByUserAsWritten(rows: seq<AttemptRow>) returns (entries: seq<Entry>)
    ensures entries == GroupedFirstSeen(rows)
  {
    ghost var keys := KeysOf(rows);
    var userMap: map<string, Entry> := map[];
    var order: seq<string> := [];
    var i := 0;
    while i < |rows|
      invariant 0 <= i <= |rows|
      invariant KeyOrder(keys, i, userMap, order)
      invariant FirstValues(rows, keys, i, userMap)
    {
      ghost var userMap0, order0 := userMap, order;
      var attempt := rows[i];
      var key := KeyAt(rows, i);
      if key !in userMap || JsLess(Property(userMap[key], MetaScoreProp), Num(attempt.metaScore)) {
        userMap := userMap[key := ToEntry(attempt)];
      }
      if key !in order {
        order := order + [key];
      }
      ghost var i0 := i;
      i := i + 1;
      FirstLoopStep(rows, keys, i0, i, userMap0, order0, userMap, order);
    }
    GroupFinal(rows, keys, userMap, order);
    entries := ValuesInOrder(userMap, order);
  }

  /** The grouping loop with the evidently intended test: replace on a strictly higher score. */
  method GroupByUser(rows: seq<AttemptRow>) returns (entries: seq<Entry>)
    ensures entries == Grouped(rows)
  {
    ghost var keys := KeysOf(rows);
    var userMap: map<string, Entry> := map[];
    var order: seq<string> := [];
    var i := 0;
    while i < |rows|
      invariant 0 <= i <= |rows|
      invariant KeyOrder(keys, i, userMap, order)
      invariant BestValues(rows, keys, i, userMap)
    {
      ghost var userMap0, order0 := userMap, order;
      var attempt := rows[i];
      var key := KeyAt(rows, i);
      if key !in userMap || JsLess(Property(userMap[key], BestScoreProp), Num(attempt.metaScore)) {
        userMap := userMap[key := ToEntry(attempt)];
      }
      if key !in order {
        order := order + [key];
      }
      ghost var i0 := i;
      i := i + 1;
      BestLoopStep(rows, keys, i0, i, userMap0, order0, userMap, order);
    }
    GroupFinal(rows, keys, userMap, order);
    entries := ValuesInOrder(userMap, order);
  }

  // ---- Sorting by best score, descending and stable ----

  /** Places `x` before the first entry that does not score more than it. */
  function Insert(x: Entry, s: seq<Entry>): (r: seq<Entry>)
    ensures multiset(r) == multiset(s) + multiset{x}
  {
    if s == [] || s[0].bestScore <= x.bestScore then [x] + s
    else
      assert s == [s[0]] + s[1..];
      [s[0]] + Insert(x, s[1..])
  }

  /** `sort((a, b) => b.best_score - a.best_score)`; the JavaScript sort is stable. */
  function SortByBestScore(s: seq<Entry>): (r: seq<Entry>)
    ensures multiset(r) == multiset(s)
  {
    if s == [] then []
    else
      assert s == [s[0]] + s[1..];
      Insert(s[0], SortByBestScore(s[1..]))
  }

  ghost predicate SortedByBestScore(s: seq<Entry>)
  {
    forall i, j :: 0 <= i < j < |s| ==> s[i].bestScore >= s[j].bestScore
  }

  /** The entries of `s` with best score `v`, in their order in `s`. */
  function WithScore(s: seq<Entry>, v: real): seq<Entry>
  {
    if s == [] then [] else (if s[0].bestScore == v then [s[0]] else []) + WithScore(s[1..], v)
  }

  lemma WithScoreCons(e: Entry, t: seq<Entry>, v: real)
    ensures WithScore([e] + t, v) == (if e.bestScore == v then [e] else []) + WithScore(t, v)
  {
    assert ([e] + t)[0] == e;
    assert ([e] + t)[1..] == t;
  }

  lemma ConsSorted(h: Entry, t: seq<Entry>)
    requires SortedByBestScore(t)
    requires forall e :: e in t ==> h.bestScore >= e.bestScore
    ensures SortedByBestScore([h] + t)
  {
    var r := [h] + t;
    forall i, j | 0 <= i < j < |r| ensures r[i].bestScore >= r[j].bestScore {
      assert r[j] == t[j - 1];
      if i > 0 {
        assert r[i] == t[i - 1];
      }
    }
  }

  lemma {:induction false} InsertSorted(x: Entry, s: seq<Entry>)
    requires SortedByBestScore(s)
    ensures SortedByBestScore(Insert(x, s))
  {
    if s == [] || s[0].bestScore <= x.bestScore {
      forall e | e in s ensures x.bestScore >= e.bestScore {
        var j :| 0 <= j < |s| && s[j] == e;
        assert s[0].bestScore >= s[j].bestScore;
      }
      ConsSorted(x, s);
    } else {
      var tail := s[1..];
      var t := Insert(x, tail);
      InsertSorted(x, tail);
      forall e | e in t ensures s[0].bestScore >= e.bestScore {
        assert e in multiset(t);
        if e != x {
          assert e in multiset(tail);
          var j :| 0 <= j < |tail| && tail[j] == e;
          assert s[j + 1] == e;
        }
      }
      ConsSorted(s[0], t);
    }
  }

  lemma {:induction false} InsertKeepsTies(x: Entry, s: seq<Entry>, v: real)
    ensures WithScore(Insert(x, s), v) == WithScore([x] + s, v)
  {
    if s != [] && s[0].bestScore > x.bestScore {
      var head, tail := s[0], s[1..];
      var t := Insert(x, tail);
      assert Insert(x, s) == [head] + t;
      assert s == [head] + tail;
      InsertKeepsTies(x, tail, v);
      WithScoreCons(head, t, v);
      WithScoreCons(x, tail, v);
      WithScoreCons(x, s, v);
      WithScoreCons(head, tail, v);
      var h: seq<Entry> := if head.bestScore == v then [head] else [];
      var y: seq<Entry> := if x.bestScore == v then [x] else [];
      var w := WithScore(tail, v);
      assert WithScore(Insert(x, s), v) == h + (y + w);
      assert WithScore([x] + s, v) == y + (h + w);
      // the two scores differ, so at most one of `h` and `y` is non-empty
      EmptyCommutes(h, y, w);
    }
  }

  lemma EmptyCommutes<T>(h: seq<T>, y: seq<T>, w: seq<T>)
    requires h == [] || y == []
    ensures h + (y + w) == y + (h + w)
  {
  }

  /** The sort orders by descending best score and keeps the order of entries with equal scores. */
  lemma {:induction false} SortProperties(s: seq<Entry>)
    ensures SortedByBestScore(SortByBestScore(s))
    ensures forall v :: WithScore(SortByBestScore(s), v) == WithScore(s, v)
  {
    if s != [] {
      var rest := SortByBestScore(s[1..]);
      SortProperties(s[1..]);
      InsertSorted(s[0], rest);
      assert s == [s[0]] + s[1..];
      forall v ensures WithScore(SortByBestScore(s), v) == WithScore(s, v) {
        InsertKeepsTies(s[0], rest, v);
        WithScoreCons(s[0], rest, v);
        WithScoreCons(s[0], s[1..], v);
      }
    }
  }

  lemma {:induction false} DistinctCount<T>(s: seq<T>, x: T)
    requires Distinct(s)
    ensures multiset(s)[x] <= 1
  {
    if s != [] {
      assert s == [s[0]] + s[1..];
      DistinctCount(s[1..], x);
      assert s[0] !in s[1..];
    }
  }

  lemma RepeatCount<T>(s: seq<T>, p: int, q: int)
    requires 0 <= p < q < |s|
    ensures s[p] == s[q] ==> multiset(s)[s[p]] >= 2
  {
    assert s == s[..q] + s[q..];
    assert s[p] in s[..q];
    assert s[q] in s[q..];
  }

  /** A permutation of a sequence without repeats has no repeats. */
  lemma DistinctPermutation<T>(a: seq<T>, b: seq<T>)
    requires multiset(a) == multiset(b)
    requires Distinct(a)
    ensures Distinct(b)
  {
    forall p, q | 0 <= p < q < |b| ensures b[p] != b[q] {
      RepeatCount(b, p, q);
      DistinctCount(a, b[p]);
    }
  }

  /** Two rows that are both the first best of the same key are the same row. */
  lemma FirstBestUnique(rows: seq<AttemptRow>, keys: seq<string>, n: nat, i: int, j: int)
    requires n <= |rows| == |keys|
    requires IsFirstBest(rows, keys, n, i) && IsFirstBest(rows, keys, n, j)
    requires keys[i] == keys[j]
    ensures i == j
  {
  }

  lemma SameUserSameEntry(rows: seq<AttemptRow>, e1: Entry, e2: Entry)
    requires IsBestEntry(rows, e1) && IsBestEntry(rows, e2)
    ensures EntryKey(e1) == EntryKey(e2) ==> e1 == e2
  {
    var keys := KeysOf(rows);
    var i :| 0 <= i < |rows| && IsFirstBest(rows, keys, |rows|, i) && e1 == ToEntry(rows[i]);
    var j :| 0 <= j < |rows| && IsFirstBest(rows, keys, |rows|, j) && e2 == ToEntry(rows[j]);
    KeysOfIndex(rows, i);
    KeysOfIndex(rows, j);
    if EntryKey(e1) == EntryKey(e2) {
      FirstBestUnique(rows, keys, |rows|, i, j);
    }
  }

  // ---- The endpoint ----

  /** The JSON reply: `{entries}`, or status 500 with a fixed error text and the thrown message. */
  datatype Response = Entries(entries: seq<Entry>) | Failed(error: string, cause: string)

  const FailureText := "Failed to fetch leaderboard"

  /** Whether a view error says the `leaderboard` relation is missing, which selects the fallback. */
  predicate IsMissingView(message: string)
  {
    || Includes(message, "relation \"leaderboard\" does not exist")
    || Includes(message, "relation \"public.leaderboard\" does not exist")
  }

  /** The entries the fallback path is meant to return: each user's best row, sorted and truncated. */
  function Fallback(rows: seq<AttemptRow>, limit: int): (r: seq<Entry>)
    ensures 0 <= limit ==> |r| <= limit
  {
    SliceTo(SortByBestScore(Grouped(rows)), limit)
  }

  /** The entries the fallback path returns as written: each user's first-seen row, sorted and truncated. */
  function FallbackAsWritten(rows: seq<AttemptRow>, limit: int): (r: seq<Entry>)
    ensures 0 <= limit ==> |r| <= limit
    ensures SortedByMetaScore(rows) ==> r == Fallback(rows, limit)
  {
    assert SortedByMetaScore(rows) ==> GroupedFirstSeen(rows) == Grouped(rows) by {
      if SortedByMetaScore(rows) {
        FirstSeenMatchesBestWhenSorted(rows);
      }
    }
    SliceTo(SortByBestScore(GroupedFirstSeen(rows)), limit)
  }

  /**
   * The fallback's output: sorted by descending best score, at most one entry per user,
   * as many entries as the limit allows, and every entry a user's best row.
   */
  lemma FallbackProperties(rows: seq<AttemptRow>, limit: int)
    ensures SortedByBestScore(Fallback(rows, limit))
    ensures Distinct(EntryKeys(Fallback(rows, limit)))
    ensures 0 <= limit ==> |Fallback(rows, limit)| == Min(limit, |DistinctKeys(KeysOf(rows), |rows|)|)
    ensures forall e :: e in Fallback(rows, limit) ==> IsBestEntry(rows, e)
  {
    var g := Grouped(rows);
    var sorted := SortByBestScore(g);
    GroupedKeys(rows);
    SortProperties(g);
    assert |sorted| == |g| by {
      assert |multiset(sorted)| == |multiset(g)|;
    }
    SortedPrefix(sorted, Fallback(rows, limit));
    FallbackBest(rows, limit);
    FallbackOnePerUser(rows, limit);
  }

  lemma SortedPrefix(s: seq<Entry>, t: seq<Entry>)
    requires SortedByBestScore(s) && t <= s
    ensures SortedByBestScore(t)
  {
    forall i, j | 0 <= i < j < |t| ensures t[i].bestScore >= t[j].bestScore {
      assert t[i] == s[i] && t[j] == s[j];
    }
  }

  /** Every entry of the fallback is some user's first best row. */
  lemma FallbackBest(rows: seq<AttemptRow>, limit: int)
    ensures forall e :: e in Fallback(rows, limit) ==> IsBestEntry(rows, e)
  {
    var g := Grouped(rows);
    var sorted := SortByBestScore(g);
    GroupedBest(rows);
    forall e | e in Fallback(rows, limit) ensures IsBestEntry(rows, e) {
      assert e in sorted;
      assert e in multiset(sorted);
    }
  }

  /** No two entries of the fallback belong to the same user. */
  lemma FallbackOnePerUser(rows: seq<AttemptRow>, limit: int)
    ensures Distinct(EntryKeys(Fallback(rows, limit)))
  {
    var out := Fallback(rows, limit);
    FallbackBest(rows, limit);
    forall p, q | 0 <= p < q < |out| ensures EntryKeys(out)[p] != EntryKeys(out)[q] {
      assert out[p] in out && out[q] in out;
      SameUserSameEntry(rows, out[p], out[q]);
      FallbackDistinct(rows, limit, p, q);
    }
  }

  /** The fallback lists no entry twice. */
  lemma FallbackDistinct(rows: seq<AttemptRow>, limit: int, p: int, q: int)
    requires 0 <= p < q < |Fallback(rows, limit)|
    ensures Fallback(rows, limit)[p] != Fallback(rows, limit)[q]
  {
    var g := Grouped(rows);
    var sorted := SortByBestScore(g);
    GroupedOnePerUser(rows);
    assert Distinct(g) by {
      forall p, q | 0 <= p < q < |g| ensures g[p] != g[q] {
        assert EntryKeys(g)[p] != EntryKeys(g)[q];
      }
    }
    DistinctPermutation(g, sorted);
    assert Fallback(rows, limit) <= sorted;
  }

  /** `parseInt(searchParams.get('limit') || '50')`, for a missing or empty parameter or a numeric one. */
  function LimitOf(limitParam: Option<int>): (limit: int)
    ensures limitParam.None? ==> limit == 50
    ensures limitParam.Some? ==> limit == limitParam.value
  {
    if limitParam.Some? then limitParam.value else 50
  }

  /**
   * `GET /api/leaderboard`, with the limit parameter and the two query results passed in. The
   * fallback runs the grouping loop as written; on rows in the descending `meta_score` order
   * the fallback query asks for, that is each user's best row.
   */
  method Get(limitParam: Option<int>, view: QueryResult<Entry>, fallback: QueryResult<AttemptRow>) returns (response: Response)
    ensures view.Rows? ==> response == Entries(view.rows)
    ensures view.QueryError? && !IsMissingView(view.message) ==>
      response == Failed(FailureText, "Database error: " + view.message)
    ensures view.QueryError? && IsMissingView(view.message) && fallback.QueryError? ==>
      response == Failed(FailureText, "Database error: " + fallback.message)
    ensures view.QueryError? && IsMissingView(view.message) && fallback.Rows? ==>
      response == Entries(FallbackAsWritten(fallback.rows, LimitOf(limitParam)))
    ensures view.QueryError? && IsMissingView(view.message) && fallback.Rows? && SortedByMetaScore(fallback.rows) ==>
      response == Entries(Fallback(fallback.rows, LimitOf(limitParam)))
  {
    var limit := LimitOf(limitParam);
    match view
    case Rows(data) =>
      response := Entries(data);
    case QueryError(message) =>
      if IsMissingView(message) {
        match fallback
        case QueryError(fallbackMessage) =>
          response := Failed(FailureText, "Database error: " + fallbackMessage);
        case Rows(fallbackData) =>
          var grouped := GroupByUserAsWritten(fallbackData);
          response := Entries(SliceTo(SortByBestScore(grouped), limit));
      } else {
        response := Failed(FailureText, "Database error: " + message);
      }
  }

  /** The error text the store gives for a missing view selects the fallback. */
  lemma MissingViewSelectsFallback(prefix: string, suffix: string)
    ensures IsMissingView(prefix + "relation \"leaderboard\" does not exist" + suffix)
    ensures IsMissingView(prefix + "relation \"public.leaderboard\" does not exist" + suffix)
  {
    IncludesInside(prefix, "relation \"leaderboard\" does not exist", suffix);
    IncludesInside(prefix, "relation \"public.leaderboard\" does not exist", suffix);
  }
}
