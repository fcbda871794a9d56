/** The mutation engine: `mutate_password` in mutated.py. */
module Mutation {

  /** The mutations of `password` with prepend token `p` and every append
      token of `appends`, in the order of `appends`. */
  function Row(p: string, password: string, appends: seq<string>): seq<string>
  {
    if appends == [] then []
    else Row(p, password, appends[..|appends| - 1]) + [p + password + appends[|appends| - 1]]
  }

  /** Every `prepend + password + append`, prepends in the outer position:
      one row per prepend token, rows in the order of `prepends`. */
  function Mutations(password: string, prepends: seq<string>, appends: seq<string>): seq<string>
  {
    if prepends == [] then []
    else Mutations(password, prepends[..|prepends| - 1], appends) + Row(prepends[|prepends| - 1], password, appends)
  }

  /** `mutate_password`: start from an empty list and append, for each
      prepend token in turn and for each append token in turn, their
      concatenation around the password. */
  method MutatePassword(password: string, prependList: seq<string>, appendList: seq<string>)
    returns (mutations: seq<string>)
    ensures mutations == Mutations(password, prependList, appendList)
  {
    mutations := [];
    for i := 0 to |prependList|
      invariant mutations == Mutations(password, prependList[..i], appendList)
    {
      assert prependList[..i + 1][..i] == prependList[..i];
      for j := 0 to |appendList|
        invariant mutations == Mutations(password, prependList[..i], appendList) + Row(prependList[i], password, appendList[..j])
      {
        assert appendList[..j + 1][..j] == appendList[..j];
        mutations := mutations + [prependList[i] + password + appendList[j]];
      }
      assert appendList[..|appendList|] == appendList;
    }
    assert prependList[..|prependList|] == prependList;
  }

  /** A row has one entry per append token: entry `j` uses `appends[j]`. */
  lemma {:induction false} RowAt(p: string, password: string, appends: seq<string>)
    ensures |Row(p, password, appends)| == |appends|
    ensures forall j :: 0 <= j < |appends| ==> Row(p, password, appends)[j] == p + password + appends[j]
  {
    if appends != [] {
      RowAt(p, password, appends[..|appends| - 1]);
    }
  }

  /** `|P| * |A|` mutations; in particular none when either list is empty. */
  lemma {:induction false} MutationsLength(password: string, prepends: seq<string>, appends: seq<string>)
    ensures |Mutations(password, prepends, appends)| == |prepends| * |appends|
  {
    if prepends != [] {
      var front := prepends[..|prepends| - 1];
      MutationsLength(password, front, appends);
      RowAt(prepends[|prepends| - 1], password, appends);
      calc {
        |Mutations(password, prepends, appends)|;
        |front| * |appends| + |appends|;
        (|front| + 1) * |appends|;
      }
    }
  }

  /** The ordering law: the mutation at index `i * |A| + j` is `P[i] + w + A[j]`. */
  lemma {:induction false} MutationsAt(password: string, prepends: seq<string>, appends: seq<string>, i: nat, j: nat)
    requires i < |prepends| && j < |appends|
    ensures |Mutations(password, prepends, appends)| == |prepends| * |appends|
    ensures i * |appends| + j < |prepends| * |appends|
    ensures Mutations(password, prepends, appends)[i * |appends| + j] == prepends[i] + password + appends[j]
  {
    var n := |prepends| - 1;
    var front := prepends[..n];
    var row := Row(prepends[n], password, appends);
    MutationsLength(password, prepends, appends);
    MutationsLength(password, front, appends);
    RowAt(prepends[n], password, appends);
    IndexBound(i, j, |appends|, |prepends|);
    assert Mutations(password, prepends, appends) == Mutations(password, front, appends) + row;
    if i < n {
      IndexBound(i, j, |appends|, n);
      MutationsAt(password, front, appends, i, j);
      assert front[i] == prepends[i];
    } else {
      assert row[j] == prepends[i] + password + appends[j];
    }
  }

  /** Row-major indices stay below the product of the dimensions. */
  lemma IndexBound(i: nat, j: nat, width: nat, height: nat)
    requires i < height && j < width
    ensures i * width + j < height * width
  {
    var d := height - i - 1;
    assert height * width == i * width + width + d * width;
  }

  /** `m` is one prepend token, then the password, then one append token. */
  ghost predicate IsMutation(m: string, password: string, prepends: seq<string>, appends: seq<string>) {
    exists i, j :: 0 <= i < |prepends| && 0 <= j < |appends| && m == prepends[i] + password + appends[j]
  }

  /** Every mutation is some prepend token, then the password as the
      contiguous middle, then some append token, and every such combination
      occurs. */
  lemma MutationsMembers(password: string, prepends: seq<string>, appends: seq<string>, m: string)
    ensures m in Mutations(password, prepends, appends) <==> IsMutation(m, password, prepends, appends)
  {
    if m in Mutations(password, prepends, appends) {
      MutationIsWellFormed(password, prepends, appends, m);
    }
    if IsMutation(m, password, prepends, appends) {
      var i, j :| 0 <= i < |prepends| && 0 <= j < |appends| && m == prepends[i] + password + appends[j];
      MutationsAt(password, prepends, appends, i, j);
    }
  }

  /** The forward half of `MutationsMembers`, by induction on the prepend tokens. */
  lemma {:induction false} MutationIsWellFormed(password: string, prepends: seq<string>, appends: seq<string>, m: string)
    requires m in Mutations(password, prepends, appends)
    ensures IsMutation(m, password, prepends, appends)
  {
    var n := |prepends| - 1;
    var front := prepends[..n];
    var row := Row(prepends[n], password, appends);
    assert Mutations(password, prepends, appends) == Mutations(password, front, appends) + row;
    if m in Mutations(password, front, appends) {
      MutationIsWellFormed(password, front, appends, m);
      var i, j :| 0 <= i < |front| && 0 <= j < |appends| && m == front[i] + password + appends[j];
      assert front[i] == prepends[i];
    } else {
      RowAt(prepends[n], password, appends);
      var j :| 0 <= j < |row| && row[j] == m;
      assert m == prepends[n] + password + appends[j];
    }
  }

  /** With the single empty token on both sides the password comes back unchanged. */
  lemma IdentityMutation(password: string)
    ensures Mutations(password, [""], [""]) == [password]
  {
    assert [""][..0] == [];
    assert Row("", password, [""]) == ["" + password + ""];
    assert "" + password + "" == password;
  }

  /** Two tokens on each side: `P1wA1, P1wA2, P2wA1, P2wA2`. */
  lemma OrderingExample(password: string, p1: string, p2: string, a1: string, a2: string)
    ensures Mutations(password, [p1, p2], [a1, a2]) ==
      [p1 + password + a1, p1 + password + a2, p2 + password + a1, p2 + password + a2]
  {
    var ps, qs := [p1, p2], [a1, a2];
    MutationsAt(password, ps, qs, 0, 0);
    MutationsAt(password, ps, qs, 0, 1);
    MutationsAt(password, ps, qs, 1, 0);
    MutationsAt(password, ps, qs, 1, 1);
  }
}
