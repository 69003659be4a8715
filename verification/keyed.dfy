/**
 * Building a dictionary line by line, `d[key] = value` for each parsed line in turn, where
 * parsing a line may raise: the shape shared by the `fuzzer_stats` parser and the two
 * score-file parsers.
 */
module Keyed {
  import opened Wrappers

  /** The loop: the first line that fails raises its error; otherwise each line sets its key in turn. */
  function Collect<K(==), V>(rows: seq<Result<(K, V)>>): (r: Result<map<K, V>>)
    decreases |rows|
  {
    if |rows| == 0 then Ok(map[])
    else
      var m :- Collect(rows[..|rows| - 1]);
      match rows[|rows| - 1]
      case Err(e) => Err(e)
      case Ok(kv) => Ok(m[kv.0 := kv.1])
  }

  /** Each line parsed on its own, in order. */
  function ParseEach<T>(ls: seq<string>, parse: string -> T): (rows: seq<T>)
    ensures |rows| == |ls|
    decreases |ls|
  {
    if |ls| == 0 then [] else [parse(ls[0])] + ParseEach(ls[1..], parse)
  }

  /** Row `i` is line `i` parsed. */
  lemma {:induction false} ParseEachAt<T>(ls: seq<string>, parse: string -> T)
    ensures forall i :: 0 <= i < |ls| ==> ParseEach(ls, parse)[i] == parse(ls[i])
    decreases |ls|
  {
    if |ls| > 0 {
      ParseEachAt(ls[1..], parse);
      assert forall i :: 1 <= i < |ls| ==> ParseEach(ls, parse)[i] == ParseEach(ls[1..], parse)[i - 1];
    }
  }

  /** Line `i` sets key `k`, and no later line does. */
  ghost predicate LastSetter<K, V>(rows: seq<Result<(K, V)>>, i: int, k: K) {
    && 0 <= i < |rows| && rows[i].Ok? && rows[i].value.0 == k
    && forall j :: i < j < |rows| ==> rows[j].Err? || rows[j].value.0 != k
  }

  /** Line `i` is the first that fails. */
  ghost predicate FirstFailure<K, V>(rows: seq<Result<(K, V)>>, i: int) {
    0 <= i < |rows| && rows[i].Err? && forall j :: 0 <= j < i ==> rows[j].Ok?
  }

  /** The loop raises iff some line fails, and then with the error of the first such line. */
  lemma {:induction false} CollectFails<K, V>(rows: seq<Result<(K, V)>>)
    ensures Collect(rows).Err? <==> exists i :: 0 <= i < |rows| && rows[i].Err?
    ensures Collect(rows).Err? ==> exists i :: FirstFailure(rows, i) && Collect(rows).error == rows[i].error
    decreases |rows|
  {
    if |rows| > 0 {
      var n := |rows| - 1;
      var init := rows[..n];
      CollectFails(init);
      if Collect(init).Err? {
        var i :| FirstFailure(init, i) && Collect(init).error == init[i].error;
        assert forall j :: 0 <= j <= i ==> rows[j] == init[j];
        assert FirstFailure(rows, i);
      } else {
        assert forall j :: 0 <= j < n ==> rows[j] == init[j] && init[j].Ok?;
        if rows[n].Err? {
          assert FirstFailure(rows, n);
        }
      }
    }
  }

  /** The last line that sets a key decides its value. */
  lemma {:induction false} CollectLast<K, V>(rows: seq<Result<(K, V)>>, i: int, k: K)
    requires Collect(rows).Ok? && LastSetter(rows, i, k)
    ensures k in Collect(rows).value && Collect(rows).value[k] == rows[i].value.1
    decreases |rows|
  {
    var n := |rows| - 1;
    var init := rows[..n];
    if i < n {
      assert rows[n].value.0 != k;
      assert LastSetter(init, i, k) by {
        assert forall j :: 0 <= j < n ==> init[j] == rows[j];
      }
      CollectLast(init, i, k);
    }
  }

  /** Every key of the result was set by some line. */
  lemma {:induction false} CollectOnlySet<K, V>(rows: seq<Result<(K, V)>>, k: K)
    requires Collect(rows).Ok? && k in Collect(rows).value
    ensures exists i :: LastSetter(rows, i, k)
    decreases |rows|
  {
    var n := |rows| - 1;
    var init := rows[..n];
    var (kl, vl) := rows[n].value;
    assert Collect(rows).value == Collect(init).value[kl := vl];
    if kl == k {
      assert LastSetter(rows, n, k);
    } else {
      CollectOnlySet(init, k);
      var i :| LastSetter(init, i, k);
      assert forall j :: 0 <= j < n ==> init[j] == rows[j];
      assert LastSetter(rows, i, k);
    }
  }

  /**
   * What the loop builds, when no line fails: exactly the keys some line sets, each with the
   * value of the last line that sets it; a non-empty input gives a non-empty dictionary.
   */
  lemma CollectSpec<K, V>(rows: seq<Result<(K, V)>>)
    requires Collect(rows).Ok?
    ensures forall k :: k in Collect(rows).value <==> exists i :: LastSetter(rows, i, k)
    ensures forall i, k :: LastSetter(rows, i, k) ==> k in Collect(rows).value && Collect(rows).value[k] == rows[i].value.1
    ensures |rows| > 0 ==> |Collect(rows).value| > 0
  {
    forall i, k | LastSetter(rows, i, k) ensures k in Collect(rows).value && Collect(rows).value[k] == rows[i].value.1 {
      CollectLast(rows, i, k);
    }
    forall k | k in Collect(rows).value ensures exists i :: LastSetter(rows, i, k) {
      CollectOnlySet(rows, k);
    }
    if |rows| > 0 {
      CollectFails(rows);
      assert LastSetter(rows, |rows| - 1, rows[|rows| - 1].value.0);
    }
  }

  /** `CollectSpec` for a dictionary `m` already known to be the result. */
  lemma CollectSpecOf<K, V>(rows: seq<Result<(K, V)>>, m: map<K, V>)
    requires Collect(rows) == Ok(m)
    ensures forall k :: k in m <==> exists i :: LastSetter(rows, i, k)
    ensures forall i, k :: LastSetter(rows, i, k) ==> k in m && m[k] == rows[i].value.1
    ensures |rows| > 0 ==> |m| > 0
  {
    CollectSpec(rows);
  }
}
