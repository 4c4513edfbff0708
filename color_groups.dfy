/**
 * The colour groups of the geospatial map (dashboard/dashboard.py:641-681):
 * `pd.factorize(geo_df['customer_state'])[0] % len(colors)`.  factorize
 * numbers the distinct states in the order in which each is first seen and
 * gives a missing state the code -1; the group is that code modulo the eight
 * colours of the palette, so a missing state falls into the last group.
 */
module ColorGroups {
  import opened Wrappers
  import opened Frames

  /** `colors`: the eight colours of the map. */
  const Palette: seq<string> := ["#003f5c", "#2f4b7c", "#665191", "#a05195", "#d45087", "#f95d6a", "#ff7c43", "#ffa600"]

  /** The states that are present (not NaN), in row order. */
  function Present(states: seq<Option<string>>): (p: seq<string>)
    ensures forall x :: x in p <==> Some(x) in states
  {
    if states == [] then []
    else
      var init := Present(states[..|states| - 1]);
      assert states == states[..|states| - 1] + [states[|states| - 1]];
      match states[|states| - 1]
      case None => init
      case Some(x) => init + [x]
  }

  /** `pd.factorize(states)[1]`: the distinct present states, in first-seen order. */
  function Uniques(states: seq<Option<string>>): (u: seq<string>)
    ensures Distinct(u)
    ensures forall x :: x in u <==> Some(x) in states
  {
    FirstSeen(Present(states))
  }

  /** The first position of x in u. */
  function IndexOf(u: seq<string>, x: string): (k: nat)
    requires x in u
    ensures k < |u| && u[k] == x
    ensures forall j :: 0 <= j < k ==> u[j] != x
  {
    if u[0] == x then 0 else 1 + IndexOf(u[1..], x)
  }

  /** `pd.factorize(states)[0][i]`: the position of the state among the uniques, -1 when it is missing. */
  function Code(states: seq<Option<string>>, i: nat): int
    requires i < |states|
  {
    match states[i]
    case None => -1
    case Some(x) => IndexOf(Uniques(states), x)
  }

  /**
   * The colour group of row i: always a valid index into the palette, the
   * last one for a missing state, and the state's code itself as long as
   * fewer than eight states were seen before it.
   */
  function ColorGroup(states: seq<Option<string>>, i: nat): (g: int)
    requires i < |states|
    ensures 0 <= g < |Palette|
    ensures states[i].None? ==> g == |Palette| - 1
    ensures states[i].Some? && Code(states, i) < |Palette| ==> g == Code(states, i)
  {
    Code(states, i) % |Palette|
  }

  /** `color_mapping[g]`: the colour a row is drawn in. */
  function RowColor(states: seq<Option<string>>, i: nat): (c: string)
    requires i < |states|
    ensures c in Palette
  {
    Palette[ColorGroup(states, i)]
  }

  lemma PresentSnoc(states: seq<Option<string>>, k: nat)
    requires k < |states|
    ensures Present(states[..k + 1]) == Present(states[..k]) + (if states[k].Some? then [states[k].value] else [])
  {
    assert states[..k + 1][..k] == states[..k];
  }

  lemma {:induction false} PresentPrefix(states: seq<Option<string>>, k: nat)
    requires k <= |states|
    ensures Present(states[..k]) <= Present(states)
  {
    if k < |states| {
      var init := states[..|states| - 1];
      PresentPrefix(init, k);
      assert init[..k] == states[..k];
      assert init == states[..|states| - 1];
    } else {
      assert states[..k] == states;
    }
  }

  /** The uniques of a prefix of the rows are a prefix of the uniques. */
  lemma UniquesPrefix(states: seq<Option<string>>, k: nat)
    requires k <= |states|
    ensures Uniques(states[..k]) <= Uniques(states)
  {
    var p, q := Present(states[..k]), Present(states);
    PresentPrefix(states, k);
    assert q[..|p|] == p;
    FirstSeenPrefix(q, |p|);
  }

  /** Reading one more row adds its state to the uniques unless it was seen already. */
  lemma UniquesSnoc(states: seq<Option<string>>, k: nat)
    requires k < |states|
    ensures states[k].None? || states[k].value in Uniques(states[..k]) ==> Uniques(states[..k + 1]) == Uniques(states[..k])
    ensures states[k].Some? && states[k].value !in Uniques(states[..k]) ==>
      Uniques(states[..k + 1]) == Uniques(states[..k]) + [states[k].value]
  {
    PresentSnoc(states, k);
    if states[k].Some? {
      FirstSeenSnoc(Present(states[..k]), states[k].value);
    } else {
      assert Present(states[..k + 1]) == Present(states[..k]);
    }
  }

  lemma IndexOfPrefix(u: seq<string>, w: seq<string>, x: string)
    requires u <= w && x in u
    ensures IndexOf(w, x) == IndexOf(u, x)
  {
    var k := IndexOf(u, x);
    assert w[k] == x;
  }

  /** Appending a new value keeps every earlier index and puts the new value last. */
  lemma IndexOfSnoc(u: seq<string>, x: string)
    requires x !in u
    ensures forall y :: y in u ==> IndexOf(u + [x], y) == IndexOf(u, y)
    ensures IndexOf(u + [x], x) == |u|
  {
    forall y | y in u ensures IndexOf(u + [x], y) == IndexOf(u, y) {
      IndexOfPrefix(u, u + [x], y);
    }
  }

  /**
   * A row's code depends only on the rows up to it: the code in the whole
   * column equals the code in any prefix that contains the row.
   */
  lemma CodeStable(states: seq<Option<string>>, k: nat, i: nat)
    requires i < k <= |states|
    ensures Code(states[..k], i) == Code(states, i)
  {
    if states[i].Some? {
      assert states[..k][i] == states[i];
      UniquesPrefix(states, k);
      IndexOfPrefix(Uniques(states[..k]), Uniques(states), states[i].value);
    }
  }

  /**
   * The code of row k from the uniques of the rows before it: the code of a
   * state already seen, or the count of states seen for a new one.
   */
  lemma CodeOfRow(states: seq<Option<string>>, k: nat)
    requires k < |states| && states[k].Some?
    ensures states[k].value in Uniques(states[..k]) ==> Code(states, k) == IndexOf(Uniques(states[..k]), states[k].value)
    ensures states[k].value !in Uniques(states[..k]) ==> Code(states, k) == |Uniques(states[..k])|
  {
    var x := states[k].value;
    var u := Uniques(states[..k]);
    UniquesSnoc(states, k);
    CodeStable(states, k + 1, k);
    assert states[..k + 1][k] == states[k];
    if x in u {
      IndexOfPrefix(u, Uniques(states[..k + 1]), x);
    } else {
      IndexOfSnoc(u, x);
    }
  }

  /**
   * factorize's numbering: the first time a state is seen it gets the number
   * of distinct states seen before it.
   */
  lemma FirstOccurrenceCode(states: seq<Option<string>>, i: nat)
    requires i < |states| && states[i].Some? && states[i] !in states[..i]
    ensures Code(states, i) == |Uniques(states[..i])|
  {
    var x := states[i].value;
    UniquesSnoc(states, i);
    assert x !in Uniques(states[..i]);
    CodeStable(states, i + 1, i);
    assert states[..i + 1][i] == states[i];
  }

  /** The first row's state, when present, gets group 0. */
  lemma FirstStateGroupZero(states: seq<Option<string>>)
    requires |states| > 0 && states[0].Some?
    ensures ColorGroup(states, 0) == 0
  {
    FirstOccurrenceCode(states, 0);
    assert states[..0] == [];
  }

  /** The k-th distinct state (counting from 0) gets group k % 8 on every row that holds it. */
  lemma KthStateGroup(states: seq<Option<string>>, k: nat, i: nat)
    requires k < |Uniques(states)| && i < |states| && states[i] == Some(Uniques(states)[k])
    ensures ColorGroup(states, i) == k % |Palette|
  {
    var u := Uniques(states);
    assert IndexOf(u, u[k]) == k;
  }

  /** Two rows with present states share a code exactly when they share a state. */
  lemma SameStateSameCode(states: seq<Option<string>>, i: nat, j: nat)
    requires i < |states| && j < |states| && states[i].Some? && states[j].Some?
    ensures Code(states, i) == Code(states, j) <==> states[i] == states[j]
  {
  }

  /** Two rows with equal states, missing or not, share a colour group. */
  lemma SameStateSameGroup(states: seq<Option<string>>, i: nat, j: nat)
    requires i < |states| && j < |states| && states[i] == states[j]
    ensures ColorGroup(states, i) == ColorGroup(states, j)
  {
  }

  /** The colour groups of the first k rows. */
  function GroupsUpTo(states: seq<Option<string>>, k: nat): (g: seq<int>)
    requires k <= |states|
    ensures |g| == k && forall i :: 0 <= i < k ==> g[i] == ColorGroup(states, i)
  {
    if k == 0 then [] else GroupsUpTo(states, k - 1) + [ColorGroup(states, k - 1)]
  }

  /**
   * The table factorize keeps while it reads the rows: every state seen so
   * far mapped to its code, and the count of states seen.
   */
  ghost predicate Table(seen: map<string, int>, count: int, u: seq<string>) {
    && count == |u|
    && (forall x :: x in seen <==> x in u)
    && (forall x :: x in seen ==> seen[x] == IndexOf(u, x))
  }

  /** Entering a new state under the next code extends the table by that state. */
  lemma TableInsert(seen: map<string, int>, count: int, u: seq<string>, x: string)
    requires Table(seen, count, u) && x !in seen
    ensures Table(seen[x := count], count + 1, u + [x])
  {
    IndexOfSnoc(u, x);
  }

  /**
   * `geo_df['color_group'] = ...`, computed row by row as factorize does: a
   * map from each state seen so far to its code, and the count of states
   * seen, which is the code of the next new state.
   */
  method AssignColorGroups(states: seq<Option<string>>) returns (groups: seq<int>)
    ensures |groups| == |states|
    ensures forall i :: 0 <= i < |states| ==> groups[i] == ColorGroup(states, i)
  {
    var seen: map<string, int> := map[];
    var count := 0;
    groups := [];
    var k := 0;
    while k < |states|
      invariant 0 <= k <= |states|
      invariant Table(seen, count, Uniques(states[..k]))
      invariant groups == GroupsUpTo(states, k)
    {
      UniquesSnoc(states, k);
      var code := -1;
      if states[k].Some? {
        var x := states[k].value;
        CodeOfRow(states, k);
        if x in seen {
          code := seen[x];
        } else {
          code := count;
          TableInsert(seen, count, Uniques(states[..k]), x);
          seen := seen[x := count];
          count := count + 1;
        }
      }
      groups := groups + [code % |Palette|];
      k := k + 1;
    }
  }
}
