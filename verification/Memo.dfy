/**
 The on-chain delivery memo: `buildServiceMemo` in lib/chain/tx-builder.ts and `decodeMemo` in
 lib/chain/solana.ts. Instruction data is modelled by the text it encodes.
 */
module Memo {
  import opened Wrappers
  import Text

  datatype Fields = Fields(sha256: string, noticeToken: string, serviceId: string)

  function BuildServiceMemo(f: Fields): string {
    f.sha256 + "|" + f.noticeToken + "|" + f.serviceId
  }

  /** Reads a memo by splitting it at its first two bars. */
  function ParseMemo(memo: string): Option<Fields> {
    var parts := Text.Split(memo, '|');
    if |parts| < 3 then None
    else Some(Fields(parts[0], parts[1], Text.Join(parts[2..], '|')))
  }

  /** Parsing recovers the fields exactly when the first two contain no bar. */
  lemma MemoRoundTrip(f: Fields)
    ensures ParseMemo(BuildServiceMemo(f)) == Some(f) <==> '|' !in f.sha256 && '|' !in f.noticeToken
  {
    var memo := BuildServiceMemo(f);
    if '|' !in f.sha256 && '|' !in f.noticeToken {
      var tail := f.noticeToken + ['|'] + f.serviceId;
      assert memo == f.sha256 + ['|'] + tail;
      Text.SplitPrefix(f.sha256, tail, '|');
      Text.SplitPrefix(f.noticeToken, f.serviceId, '|');
      var parts := Text.Split(f.serviceId, '|');
      assert Text.Split(memo, '|') == [f.sha256, f.noticeToken] + parts;
      assert ([f.sha256, f.noticeToken] + parts)[2..] == parts;
      Text.JoinSplit(f.serviceId, '|');
    } else {
      Text.JoinSplit(memo, '|');
    }
  }

  /** Services with different ids have different memos. */
  lemma MemosDiffer(f: Fields, g: Fields)
    requires '|' !in f.sha256 && '|' !in f.noticeToken && '|' !in g.sha256 && '|' !in g.noticeToken
    requires f != g
    ensures BuildServiceMemo(f) != BuildServiceMemo(g)
  {
    MemoRoundTrip(f);
    MemoRoundTrip(g);
  }

  /** A public key; only the identity of the Memo program matters. */
  type Key = string

  const MEMO_PROGRAM_ID: Key := "MemoSq4gqABAXKb96qnH8TysNcWxMyWCqXgDLGmfcHr"
  const SYSTEM_PROGRAM_ID: Key := "11111111111111111111111111111111"

  datatype Instruction = Instruction(programIdIndex: nat, data: string)

  /** The legacy shape fills the first and third field, the v0 shape the second and fourth. */
  datatype Message = Message(
    accountKeys: Option<seq<Key>>,
    staticAccountKeys: Option<seq<Key>>,
    instructions: Option<seq<Instruction>>,
    compiledInstructions: Option<seq<Instruction>>)

  function KeysOf(m: Message): Option<seq<Key>> {
    if m.accountKeys.Some? then m.accountKeys else m.staticAccountKeys
  }

  predicate IsMemo(keys: seq<Key>, ix: Instruction) {
    ix.programIdIndex < |keys| && keys[ix.programIdIndex] == MEMO_PROGRAM_ID
  }

  /** The data of the first Memo instruction of a list. */
  function FirstMemo(keys: seq<Key>, ixs: seq<Instruction>): Option<string> {
    if ixs == [] then None
    else if IsMemo(keys, ixs[0]) then Some(ixs[0].data)
    else FirstMemo(keys, ixs[1..])
  }

  /** The memo a message carries; `None` is the null of `decodeMemo`. */
  function MemoOf(m: Message): Option<string> {
    if KeysOf(m).None? then None
    else
      var legacy := FirstMemo(KeysOf(m).value, m.instructions.GetOr([]));
      if legacy.Some? then legacy else FirstMemo(KeysOf(m).value, m.compiledInstructions.GetOr([]))
  }

  method DecodeMemo(message: Option<Message>) returns (memo: Option<string>)
    ensures memo == if message.None? then None else MemoOf(message.value)
  {
    if message.None? {
      return None;
    }
    var m := message.value;
    var accountKeys := if m.accountKeys.Some? then m.accountKeys else m.staticAccountKeys;
    if accountKeys.None? {
      return None;
    }
    var keys := accountKeys.value;
    if m.instructions.Some? {
      var ixs := m.instructions.value;
      for i := 0 to |ixs|
        invariant FirstMemo(keys, ixs[i..]) == FirstMemo(keys, ixs)
      {
        if IsMemo(keys, ixs[i]) {
          return Some(ixs[i].data);
        }
        assert ixs[i..][1..] == ixs[i + 1..];
      }
    }
    if m.compiledInstructions.Some? {
      var ixs := m.compiledInstructions.value;
      for i := 0 to |ixs|
        invariant FirstMemo(keys, ixs[i..]) == FirstMemo(keys, ixs)
      {
        if IsMemo(keys, ixs[i]) {
          return Some(ixs[i].data);
        }
        assert ixs[i..][1..] == ixs[i + 1..];
      }
    }
    return None;
  }

  /** The instructions of a delivery: a transfer and the memo, in either order. */
  ghost predicate DeliveryInstructions(keys: seq<Key>, ixs: seq<Instruction>, memo: string) {
    && |ixs| == 2
    && (forall i :: 0 <= i < 2 ==> ixs[i].programIdIndex < |keys|)
    && (exists i :: 0 <= i < 2 && IsMemo(keys, ixs[i]) && ixs[i].data == memo
                    && keys[ixs[1 - i].programIdIndex] == SYSTEM_PROGRAM_ID)
  }

  /**
   A delivery message in the legacy or the v0 shape, with its accounts in any order. A legacy message
   may offer a v0 view of itself as well.
   */
  ghost predicate CarriesDelivery(m: Message, memo: string) {
    || (m.accountKeys.Some? && m.instructions.Some?
        && DeliveryInstructions(m.accountKeys.value, m.instructions.value, memo))
    || (m.accountKeys.None? && m.staticAccountKeys.Some? && m.instructions.None? && m.compiledInstructions.Some?
        && DeliveryInstructions(m.staticAccountKeys.value, m.compiledInstructions.value, memo))
  }

  lemma {:induction false} FirstMemoIs(keys: seq<Key>, ixs: seq<Instruction>, i: nat)
    requires i < |ixs| && IsMemo(keys, ixs[i])
    requires forall j :: 0 <= j < i ==> !IsMemo(keys, ixs[j])
    ensures FirstMemo(keys, ixs) == Some(ixs[i].data)
  {
    if i > 0 {
      FirstMemoIs(keys, ixs[1..], i - 1);
    }
  }

  lemma {:induction false} NoMemo(keys: seq<Key>, ixs: seq<Instruction>)
    ensures FirstMemo(keys, ixs).None? <==> forall i :: 0 <= i < |ixs| ==> !IsMemo(keys, ixs[i])
  {
    if ixs != [] {
      NoMemo(keys, ixs[1..]);
      if FirstMemo(keys, ixs[1..]).None? && !IsMemo(keys, ixs[0]) {
        forall i | 0 <= i < |ixs|
          ensures !IsMemo(keys, ixs[i])
        {
          assert i > 0 ==> ixs[1..][i - 1] == ixs[i];
        }
      }
      if forall i :: 0 <= i < |ixs| ==> !IsMemo(keys, ixs[i]) {
        forall i | 0 <= i < |ixs[1..]|
          ensures !IsMemo(keys, ixs[1..][i])
        {
          assert ixs[1..][i] == ixs[i + 1];
        }
      }
    }
  }

  /** Decoding a delivery returns its memo. */
  lemma DeliveryDecodes(m: Message, memo: string)
    requires CarriesDelivery(m, memo)
    ensures MemoOf(m) == Some(memo)
  {
    var legacy := m.accountKeys.Some?;
    var keys := KeysOf(m).value;
    var ixs := if legacy then m.instructions.value else m.compiledInstructions.value;
    var i :| 0 <= i < 2 && IsMemo(keys, ixs[i]) && ixs[i].data == memo && !IsMemo(keys, ixs[1 - i]);
    FirstMemoIs(keys, ixs, i);
  }

  /** `decodeMemo` returns null exactly when the message has no keys or no Memo instruction. */
  lemma NullWithoutMemo(m: Message)
    ensures MemoOf(m).None? <==>
            KeysOf(m).Some? ==>
              forall ix :: ix in m.instructions.GetOr([]) + m.compiledInstructions.GetOr([]) ==>
                             !IsMemo(KeysOf(m).value, ix)
  {
    if KeysOf(m).Some? {
      var a, b := m.instructions.GetOr([]), m.compiledInstructions.GetOr([]);
      NoMemo(KeysOf(m).value, a);
      NoMemo(KeysOf(m).value, b);
      assert forall i :: 0 <= i < |a| ==> a[i] in a + b;
      assert forall i :: 0 <= i < |b| ==> b[i] in a + b;
    }
  }

  /**
   The memo of a message is the data of its first instruction for the Memo program, of which those of the
   legacy list come first; the keys are the legacy ones if there are any.
   */
  lemma FirstMemoWins(m: Message, keys: seq<Key>, i: nat)
    requires m.accountKeys == Some(keys) || (m.accountKeys == None && m.staticAccountKeys == Some(keys))
    requires var all := m.instructions.GetOr([]) + m.compiledInstructions.GetOr([]);
             && i < |all| && all[i].programIdIndex < |keys|
             && keys[all[i].programIdIndex] == "MemoSq4gqABAXKb96qnH8TysNcWxMyWCqXgDLGmfcHr"
             && forall j :: 0 <= j < i && all[j].programIdIndex < |keys| ==>
                  keys[all[j].programIdIndex] != "MemoSq4gqABAXKb96qnH8TysNcWxMyWCqXgDLGmfcHr"
    ensures MemoOf(m) == Some((m.instructions.GetOr([]) + m.compiledInstructions.GetOr([]))[i].data)
  {
    var a, b := m.instructions.GetOr([]), m.compiledInstructions.GetOr([]);
    var all := a + b;
    assert IsMemo(keys, all[i]) && forall j :: 0 <= j < i ==> !IsMemo(keys, all[j]);
    if i < |a| {
      assert forall j :: 0 <= j <= i ==> all[j] == a[j];
      FirstMemoIs(keys, a, i);
    } else {
      assert forall j :: 0 <= j < |a| ==> all[j] == a[j];
      NoMemo(keys, a);
      assert forall j :: 0 <= j <= i - |a| ==> all[|a| + j] == b[j];
      FirstMemoIs(keys, b, i - |a|);
    }
  }

  /** Both shapes of a delivery exist, with the two instructions in either order. */
  lemma DeliveriesExist(memo: string, transfer: string)
    ensures CarriesDelivery(Message(Some(["11111111111111111111111111111111",
                                          "MemoSq4gqABAXKb96qnH8TysNcWxMyWCqXgDLGmfcHr"]), None,
                                    Some([Instruction(0, transfer), Instruction(1, memo)]), None), memo)
    ensures CarriesDelivery(Message(None, Some(["MemoSq4gqABAXKb96qnH8TysNcWxMyWCqXgDLGmfcHr",
                                                "11111111111111111111111111111111"]), None,
                                    Some([Instruction(0, memo), Instruction(1, transfer)])), memo)
  {
    var keys, turned := [SYSTEM_PROGRAM_ID, MEMO_PROGRAM_ID], [MEMO_PROGRAM_ID, SYSTEM_PROGRAM_ID];
    var ixs := [Instruction(0, transfer), Instruction(1, memo)];
    var swapped := [Instruction(0, memo), Instruction(1, transfer)];
    assert IsMemo(keys, ixs[1]) && keys[ixs[1 - 1].programIdIndex] == SYSTEM_PROGRAM_ID;
    assert IsMemo(turned, swapped[0]) && turned[swapped[1 - 0].programIdIndex] == SYSTEM_PROGRAM_ID;
  }
}
