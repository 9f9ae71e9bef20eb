/** The SQL text builders: the dictionary-placeholder helpers of
    MySQLPlugin/Util.py, and the positional INSERT statement that the fixture
    and data loaders build inline for every row. */
module SqlText {

  /** Python's `sep.join(xs)`. */
  function Join(sep: string, xs: seq<string>): string
  {
    if |xs| == 0 then ""
    else if |xs| == 1 then xs[0]
    else xs[0] + sep + Join(sep, xs[1..])
  }

  /** Python's `s * n`: `n` copies of `s`, and the empty string when `n <= 0`. */
  function Repeat(s: string, n: int): string
    decreases n
  {
    if n <= 0 then "" else s + Repeat(s, n - 1)
  }

  /** Python's `[s] * n`. */
  function Copies(s: string, n: nat): (r: seq<string>)
    ensures |r| == n && forall i :: 0 <= i < n ==> r[i] == s
  {
    seq(n, _ => s)
  }

  lemma {:induction false} JoinConcat(sep: string, xs: seq<string>, ys: seq<string>)
    requires xs != [] && ys != []
    ensures Join(sep, xs + ys) == Join(sep, xs) + sep + Join(sep, ys)
    decreases |xs|
  {
    assert (xs + ys)[0] == xs[0];
    if |xs| == 1 {
      assert (xs + ys)[1..] == ys;
    } else {
      assert (xs + ys)[1..] == xs[1..] + ys;
      JoinConcat(sep, xs[1..], ys);
    }
  }

  // ---------------------------------------------------------------------
  // makePlaceholderList

  /** The character at position `i` of a list of `%s` placeholders separated
      by commas: `%s,%s,...,%s`. */
  function PlaceholderListChar(i: nat): char
  {
    if i % 3 == 0 then '%' else if i % 3 == 1 then 's' else ','
  }

  lemma {:induction false} PlaceholderListShape(n: nat)
    ensures n == 0 ==> Join(",", Copies("%s", n)) == ""
    ensures n > 0 ==> |Join(",", Copies("%s", n))| == 3 * n - 1
    ensures forall i :: 0 <= i < |Join(",", Copies("%s", n))| ==>
              Join(",", Copies("%s", n))[i] == PlaceholderListChar(i)
  {
    if n >= 2 {
      var r' := Join(",", Copies("%s", n - 1));
      assert Copies("%s", n)[1..] == Copies("%s", n - 1);
      PlaceholderListShape(n - 1);
      var r := Join(",", Copies("%s", n));
      assert r == "%s" + "," + r';
      forall i | 3 <= i < |r| ensures r[i] == PlaceholderListChar(i) {
        assert r[i] == r'[i - 3];
      }
    }
  }

  /** makePlaceholderList: one `%s` per element of the list, separated by
      commas, so a statement built with it takes exactly `|sourceList|`
      positional arguments. */
  function MakePlaceholderList<T>(sourceList: seq<T>): (r: string)
    ensures |sourceList| == 0 ==> r == ""
    ensures |sourceList| > 0 ==> |r| == 3 * |sourceList| - 1
    ensures forall i :: 0 <= i < |r| ==> r[i] == PlaceholderListChar(i)
  {
    PlaceholderListShape(|sourceList|);
    Join(",", Copies("%s", |sourceList|))
  }

  // ---------------------------------------------------------------------
  // The positional INSERT statement of the fixture and data loaders

  lemma {:induction false} RepeatedPlaceholders(n: nat)
    ensures n >= 1 ==> "%s" + Repeat(",%s", n - 1) == Join(",", Copies("%s", n))
  {
    if n >= 2 {
      RepeatedPlaceholders(n - 1);
      assert Copies("%s", n)[1..] == Copies("%s", n - 1);
      calc {
        "%s" + Repeat(",%s", n - 1);
        "%s" + (",%s" + Repeat(",%s", n - 2));
        "%s" + "," + ("%s" + Repeat(",%s", n - 2));
        "%s" + "," + Join(",", Copies("%s", n - 1));
      }
    }
  }

  /** The statement the loaders build for one row with the given columns:
      the columns in row order, then one `%s` per column. A row with no
      columns still gets one `%s` (Python's `',%s' * -1` is empty), so its
      statement takes one argument while the row supplies none. */
  function PositionalInsertQuery(table: string, columns: seq<string>): (q: string)
    ensures |columns| > 0 ==>
      q == "INSERT INTO " + table + " (" + Join(",", columns) + ") VALUES ("
           + MakePlaceholderList(columns) + ")"
    ensures |columns| == 0 ==> q == "INSERT INTO " + table + " () VALUES (%s)"
  {
    RepeatedPlaceholders(|columns|);
    "INSERT INTO " + table + " (" + Join(",", columns) + ") VALUES ("
      + "%s" + Repeat(",%s", |columns| - 1) + ")"
  }

  // ---------------------------------------------------------------------
  // buildInsertQuery

  function NamedPlaceholder(key: string): string
  {
    "%(" + key + ")s"
  }

  /** One dictionary-style placeholder per key, in key order. */
  function NamedPlaceholders(keys: seq<string>): (r: seq<string>)
    ensures |r| == |keys| && forall i :: 0 <= i < |keys| ==> r[i] == NamedPlaceholder(keys[i])
  {
    seq(|keys|, i requires 0 <= i < |keys| => NamedPlaceholder(keys[i]))
  }

  /** Joining the keys with `)s,%(` and wrapping the result in `%(`...`)s`
      is the same as joining the per-key placeholders with commas. */
  lemma {:induction false} NamedPlaceholderJoin(keys: seq<string>)
    ensures keys != [] ==> "%(" + Join(")s,%(", keys) + ")s" == Join(",", NamedPlaceholders(keys))
  {
    if |keys| >= 2 {
      NamedPlaceholderJoin(keys[1..]);
      assert NamedPlaceholders(keys)[1..] == NamedPlaceholders(keys[1..]);
      calc {
        "%(" + Join(")s,%(", keys) + ")s";
        "%(" + (keys[0] + ")s,%(" + Join(")s,%(", keys[1..])) + ")s";
        ("%(" + keys[0] + ")s") + "," + ("%(" + Join(")s,%(", keys[1..]) + ")s");
        NamedPlaceholder(keys[0]) + "," + Join(",", NamedPlaceholders(keys[1..]));
      }
    }
  }

  /** buildInsertQuery: the columns are the keys in order, and the VALUES list
      holds one `%(key)s` placeholder per key in the same order; with no keys
      the VALUES list is a single placeholder with an empty name. */
  function BuildInsertQuery(table: string, keys: seq<string>): (q: string)
    ensures keys != [] ==>
      q == "INSERT INTO " + table + " (" + Join(",", keys) + ") VALUES("
           + Join(",", NamedPlaceholders(keys)) + ")"
    ensures keys == [] ==> q == "INSERT INTO " + table + " () VALUES(%()s)"
  {
    NamedPlaceholderJoin(keys);
    "INSERT INTO " + table + " (" + Join(",", keys) + ") VALUES(%("
      + Join(")s,%(", keys) + ")s)"
  }

  // ---------------------------------------------------------------------
  // whereEquals

  /** The condition for one key: `key = %(key)s `, trailing space included. */
  function EqualsFragment(key: string): string
  {
    key + " = %(" + key + ")s "
  }

  function EqualsFragments(keys: seq<string>): (r: seq<string>)
    ensures |r| == |keys| && forall i :: 0 <= i < |keys| ==> r[i] == EqualsFragment(keys[i])
  {
    seq(|keys|, i requires 0 <= i < |keys| => EqualsFragment(keys[i]))
  }

  /** whereEquals: the per-key conditions, in key order, separated by the
      coordinator and a space; the coordinator defaults to `AND`. */
  function WhereEquals(equalConditions: seq<string>, coordinator: string := "AND"): (w: string)
    ensures equalConditions == [] ==> w == ""
    ensures |equalConditions| == 1 ==> w == EqualsFragment(equalConditions[0])
  {
    Join(coordinator + " ", EqualsFragments(equalConditions))
  }

  /** The clause for a concatenation of key lists is the two clauses joined
      by one coordinator: every key contributes its own fragment, in order. */
  lemma WhereEqualsConcat(a: seq<string>, b: seq<string>, coordinator: string)
    requires a != [] && b != []
    ensures WhereEquals(a + b, coordinator)
            == WhereEquals(a, coordinator) + coordinator + " " + WhereEquals(b, coordinator)
  {
    assert EqualsFragments(a + b) == EqualsFragments(a) + EqualsFragments(b);
    JoinConcat(coordinator + " ", EqualsFragments(a), EqualsFragments(b));
  }

  /** Adding a key at the front adds its fragment and one default `AND `. */
  lemma WhereEqualsDefaultCons(key: string, rest: seq<string>)
    requires rest != []
    ensures WhereEquals([key] + rest) == EqualsFragment(key) + "AND " + WhereEquals(rest)
  {
    WhereEqualsConcat([key], rest, "AND");
  }
}
