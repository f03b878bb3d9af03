/**
 * The message store: `MessageModel` objects, their seeding, the reaction set and the
 * effect of committing a reaction on the store's reactions.
 */
module Messages {
  import opened Optional

  /** `MessageModel`: an observable object whose `action` is updated in place. */
  class MessageModel {
    const id: int
    var text: string
    var action: Option<string>

    constructor (id: int, text: string, action: Option<string>)
      ensures this.id == id && this.text == text && this.action == action
    {
      this.id := id;
      this.text := text;
      this.action := action;
    }
  }

  /** Number of placeholder messages the list is seeded with. */
  const SeedCount: nat := 100

  /** The seven reactions offered, in display order: heart, thumbs down, thumbs up, rofl, cursing, sobbing, screaming. */
  const Reactions: seq<string> := [
    "\U{2764}\U{FE0F}", "\U{1F44E}", "\U{1F44D}", "\U{1F923}", "\U{1F92C}", "\U{1F62D}", "\U{1F631}"
  ]

  const Heart: string := "\U{2764}\U{FE0F}"

  lemma ReactionsFixed()
    ensures |Reactions| == 7 && Reactions[0] == Heart
    ensures forall i, j :: 0 <= i < j < |Reactions| ==> Reactions[i] != Reactions[j]
  {
  }

  predicate IsDigit(c: char) {
    '0' as int <= c as int <= '9' as int
  }

  function DigitChar(d: nat): (c: char)
    requires d < 10
    ensures IsDigit(c) && c as int - '0' as int == d
  {
    ('0' as int + d) as char
  }

  /** Swift's string interpolation of a non-negative `Int`: its decimal digits, without leading zeros. */
  function Decimal(n: nat): (s: string)
    ensures 1 <= |s|
    ensures forall i :: 0 <= i < |s| ==> IsDigit(s[i])
    ensures s[0] == '0' ==> n == 0 && |s| == 1
    decreases n
  {
    if n < 10 then [DigitChar(n)] else Decimal(n / 10) + [DigitChar(n % 10)]
  }

  /** Reads a string of decimal digits back as a number. */
  function ParseDecimal(s: string): nat
    requires forall i :: 0 <= i < |s| ==> IsDigit(s[i])
  {
    if s == [] then 0
    else
      assert IsDigit(s[|s| - 1]);
      ParseDecimal(s[..|s| - 1]) * 10 + (s[|s| - 1] as int - '0' as int)
  }

  /** The decimal text of a number reads back as that number. */
  lemma {:induction false} DecimalRoundTrip(n: nat)
    ensures ParseDecimal(Decimal(n)) == n
    decreases n
  {
    if n >= 10 {
      var s := Decimal(n);
      assert s[..|s| - 1] == Decimal(n / 10);
      DecimalRoundTrip(n / 10);
    }
  }

  /** The text a seeded message is given: "Message " followed by its number. */
  function MessageText(n: nat): string
  {
    "Message " + Decimal(n)
  }

  /** Seeded texts name their message: the number after the prefix reads back, so distinct ids get distinct texts. */
  lemma MessageTextNamesId(n: nat, m: nat)
    ensures |MessageText(n)| > 8 && MessageText(n)[..8] == "Message "
    ensures ParseDecimal(MessageText(n)[8..]) == n
    ensures MessageText(n) == MessageText(m) ==> n == m
  {
    assert MessageText(n)[8..] == Decimal(n);
    assert MessageText(m)[8..] == Decimal(m);
    DecimalRoundTrip(n);
    DecimalRoundTrip(m);
  }

  /** `Array(1...n).map { MessageModel(id: $0, text: "Message \($0)", action: nil) }`. */
  method MakeMessages(n: nat) returns (ms: seq<MessageModel>)
    ensures |ms| == n
    ensures forall i :: 0 <= i < n ==>
              fresh(ms[i]) && ms[i].id == i + 1 && ms[i].text == MessageText(i + 1) && ms[i].action == None
  {
    ms := [];
    var k := 1;
    while k <= n
      invariant 1 <= k <= n + 1
      invariant |ms| == k - 1
      invariant forall i :: 0 <= i < |ms| ==>
                  fresh(ms[i]) && ms[i].id == i + 1 && ms[i].text == MessageText(i + 1) && ms[i].action == None
    {
      var m := new MessageModel(k, MessageText(k), None);
      ms := ms + [m];
      k := k + 1;
    }
  }

  /** The ids of a list of messages, in list order. */
  function Ids(ms: seq<MessageModel>): (ids: seq<int>)
    ensures |ids| == |ms| && forall i :: 0 <= i < |ms| ==> ids[i] == ms[i].id
  {
    seq(|ms|, i requires 0 <= i < |ms| => ms[i].id)
  }

  /** The committed reactions of a list of messages, in list order. */
  function Actions(ms: seq<MessageModel>): (actions: seq<Option<string>>)
    reads ms
    ensures |actions| == |ms| && forall i :: 0 <= i < |ms| ==> actions[i] == ms[i].action
  {
    seq(|ms|, i requires 0 <= i < |ms| reads ms => ms[i].action)
  }

  /** No two entries share an id (and so no message object is listed twice). */
  predicate UniqueIds(ids: seq<int>) {
    forall i, j :: 0 <= i < j < |ids| ==> ids[i] != ids[j]
  }

  /** Seeded messages are numbered 1 to n in order, so their ids are unique. */
  lemma SeededIdsUnique(ms: seq<MessageModel>)
    requires forall i :: 0 <= i < |ms| ==> ms[i].id == i + 1
    ensures UniqueIds(Ids(ms))
    ensures forall id :: id in Ids(ms) <==> 1 <= id <= |ms|
  {
    forall id | 1 <= id <= |ms| ensures id in Ids(ms) {
      assert Ids(ms)[id - 1] == id;
    }
  }

  /**
   * Committing reaction `e` for message `id`: every message with that id takes `e`,
   * every other message keeps its reaction. This is the store-level view of a pick.
   */
  function CommitReaction(actions: seq<Option<string>>, ids: seq<int>, id: int, e: string): (r: seq<Option<string>>)
    requires |ids| == |actions|
    ensures |r| == |actions|
    decreases |actions|
  {
    if actions == [] then []
    else [if ids[0] == id then Some(e) else actions[0]] + CommitReaction(actions[1..], ids[1..], id, e)
  }

  /** What a commit does at each position: the target takes `e`, the others are untouched. */
  lemma {:induction false} CommitAt(actions: seq<Option<string>>, ids: seq<int>, id: int, e: string, i: nat)
    requires |ids| == |actions| && i < |actions|
    ensures CommitReaction(actions, ids, id, e)[i] == if ids[i] == id then Some(e) else actions[i]
    decreases i
  {
    if i > 0 {
      CommitAt(actions[1..], ids[1..], id, e, i - 1);
    }
  }

  /** With unique ids, committing for the message at position k changes that position alone. */
  lemma CommitTouchesOnlyTarget(actions: seq<Option<string>>, ids: seq<int>, k: nat, e: string)
    requires |ids| == |actions| && k < |ids| && UniqueIds(ids)
    ensures CommitReaction(actions, ids, ids[k], e) == actions[k := Some(e)]
  {
    var r := CommitReaction(actions, ids, ids[k], e);
    forall i | 0 <= i < |actions| ensures r[i] == actions[k := Some(e)][i] {
      CommitAt(actions, ids, ids[k], e, i);
    }
  }

  /** Committing for an id that no message has leaves every reaction as it was. */
  lemma CommitUnknownIdIsNoOp(actions: seq<Option<string>>, ids: seq<int>, id: int, e: string)
    requires |ids| == |actions| && id !in ids
    ensures CommitReaction(actions, ids, id, e) == actions
  {
    var r := CommitReaction(actions, ids, id, e);
    forall i | 0 <= i < |actions| ensures r[i] == actions[i] {
      CommitAt(actions, ids, id, e, i);
    }
  }

  /** A committed reaction is never cleared by a later commit: reactions are sticky. */
  lemma CommitKeepsReactions(actions: seq<Option<string>>, ids: seq<int>, id: int, e: string)
    requires |ids| == |actions|
    ensures forall i :: 0 <= i < |actions| && actions[i].Some? ==> CommitReaction(actions, ids, id, e)[i].Some?
  {
    forall i | 0 <= i < |actions| && actions[i].Some? ensures CommitReaction(actions, ids, id, e)[i].Some? {
      CommitAt(actions, ids, id, e, i);
    }
  }
}
