/**
 * The catalog's value side: entries, the insertion order of an ordered
 * dictionary, removal from that order, and the broadcast tally.
 */
module Catalog {
  import opened Text
  import opened Dispatch

  /** One catalog entry, `{'name': ..., 'config': ...}`. */
  datatype Config = Config(name: string, url: string)

  predicate Distinct(s: seq<string>) {
    forall i, j :: 0 <= i < j < |s| ==> s[i] != s[j]
  }

  /** The key order of a dictionary after `del d[x]`. */
  function Without(s: seq<string>, x: string): (r: seq<string>)
    ensures forall y :: y in r <==> y in s && y != x
    ensures |r| <= |s|
  {
    if s == [] then []
    else
      assert forall y :: y in s <==> y == s[0] || y in s[1..];
      (if s[0] == x then [] else [s[0]]) + Without(s[1..], x)
  }

  /** Removing a key that is not there leaves the order as it was. */
  lemma {:induction false} WithoutAbsent(s: seq<string>, x: string)
    requires x !in s
    ensures Without(s, x) == s
  {
    if s != [] {
      WithoutAbsent(s[1..], x);
      assert s == [s[0]] + s[1..];
    }
  }

  /**
   * Removing a key that is there deletes exactly its one position: every other
   * key stays, in the same relative order.
   */
  lemma {:induction false} WithoutDeletesOne(s: seq<string>, x: string) returns (k: nat)
    requires Distinct(s) && x in s
    ensures k < |s| && s[k] == x
    ensures Without(s, x) == s[..k] + s[k + 1..]
  {
    if s[0] == x {
      k := 0;
      assert x !in s[1..];
      WithoutAbsent(s[1..], x);
    } else {
      assert x in s[1..];
      var k' := WithoutDeletesOne(s[1..], x);
      k := k' + 1;
      assert s[..k] == [s[0]] + s[1..][..k'];
      assert s[k + 1..] == s[1..][k' + 1..];
    }
  }

  /** The catalog order stays free of duplicates when a key is removed. */
  lemma WithoutDistinct(s: seq<string>, x: string)
    requires Distinct(s)
    ensures Distinct(Without(s, x))
  {
    if x in s {
      var k := WithoutDeletesOne(s, x);
      var r := Without(s, x);
      forall i, j | 0 <= i < j < |r| ensures r[i] != r[j] {
        var i' := if i < k then i else i + 1;
        var j' := if j < k then j else j + 1;
        assert r[i] == s[i'] && r[j] == s[j'];
      }
    } else {
      WithoutAbsent(s, x);
    }
  }

  /** The number of recipients whose send succeeded: the broadcast's `sent`. */
  function DeliveredCount(recipients: seq<int>, delivered: int -> bool): (n: nat)
    ensures n <= |recipients|
    ensures (forall i :: 0 <= i < |recipients| ==> delivered(recipients[i])) ==> n == |recipients|
    ensures (forall i :: 0 <= i < |recipients| ==> !delivered(recipients[i])) ==> n == 0
  {
    if recipients == [] then 0
    else DeliveredCount(recipients[..|recipients| - 1], delivered)
         + (if delivered(recipients[|recipients| - 1]) then 1 else 0)
  }

  /** For a list without duplicates, `sent` is the number of distinct users reached. */
  lemma {:induction false} DeliveredCountIsReachedUsers(recipients: seq<int>, delivered: int -> bool)
    requires forall i, j :: 0 <= i < j < |recipients| ==> recipients[i] != recipients[j]
    ensures DeliveredCount(recipients, delivered) == |set u | u in recipients && delivered(u)|
  {
    if recipients != [] {
      var init := recipients[..|recipients| - 1];
      var last := recipients[|recipients| - 1];
      DeliveredCountIsReachedUsers(init, delivered);
      assert last !in init by {
        forall k | 0 <= k < |init| ensures init[k] != last {
          assert init[k] == recipients[k];
        }
      }
      assert recipients == init + [last];
      ReachedOfAppend(init, last, delivered);
    }
  }

  /** Appending a recipient not yet listed adds it to the reached set exactly when its send succeeds. */
  lemma ReachedOfAppend(init: seq<int>, last: int, delivered: int -> bool)
    requires last !in init
    ensures |set u | u in init + [last] && delivered(u)|
            == |set u | u in init && delivered(u)| + (if delivered(last) then 1 else 0)
  {
    var before := set u | u in init && delivered(u);
    var after := set u | u in init + [last] && delivered(u);
    if delivered(last) {
      assert after == before + {last};
    } else {
      assert after == before;
    }
  }

  /** Sending to 1, 2, 3 where 2 fails reports 2. */
  lemma BroadcastExample()
    ensures DeliveredCount([1, 2, 3], u => u != 2) == 2
  {
    assert [1, 2, 3][..2] == [1, 2];
    assert [1, 2][..1] == [1];
    assert [1][..0] == [];
  }

  /** A button of the servers keyboard: the entry's name, and `config_<id>`. */
  datatype Button = Button(text: string, payload: string)

  function ServerButton(id: string, entry: Config): Button {
    Button(entry.name, "config_" + id)
  }

  /** Pressing a server button shows exactly the entry it was made for. */
  lemma ServerButtonOpensEntry(id: string, entry: Config, fromAdmin: bool, rules: CharRules)
    ensures Decode(ServerButton(id, entry).payload, fromAdmin, rules) == ShowConfig(id)
  {
    DecodeConfigPayload(id, fromAdmin, rules);
  }

  /** The "back" button closing the servers keyboard. */
  const BackButton: Button := Button("\U{1F519} \U{0628}\U{0627}\U{0632}\U{06AF}\U{0634}\U{062A}", "back")

  /** The back button leads to the start screen, whoever presses it. */
  lemma BackButtonGoesBack(fromAdmin: bool, rules: CharRules)
    ensures Decode(BackButton.payload, fromAdmin, rules) == Open(Back)
  {
    assert "back"[0] == 'b';
    assert "config_"[0] != 'b' && "faq_"[0] != 'b' && "copy_"[0] != 'b' && "admin_remove_"[0] != 'b';
  }

  /** The buttons of a keyboard, row after row. */
  function Flatten(rows: seq<seq<Button>>): seq<Button> {
    if rows == [] then [] else Flatten(rows[..|rows| - 1]) + rows[|rows| - 1]
  }

  /** Adding a row adds its buttons at the end. */
  lemma FlattenAppend(rows: seq<seq<Button>>, row: seq<Button>)
    ensures Flatten(rows + [row]) == Flatten(rows) + row
  {
    assert (rows + [row])[..|rows|] == rows;
  }
}
