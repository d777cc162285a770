/**
 * Ways through the screens (firmware/src/ui.cpp): choosing a correspondent, replying, writing to everyone, and coming
 * back.
 */
module Journeys {
  import opened Words
  import opened MessageStore
  import opened StoreLaws
  import opened Ui

  /** The characters after letters and digits. */
  const MARKS := " .,!?-:;'@#&+="

  /** The characters offered are the capital letters, the digits and the marks, in this order. */
  lemma CharsetExactly(i: nat)
    requires i < CHARSET_LEN
    ensures CHARSET_LEN == 50
    ensures CharAt(i) as int == if i < 26 then 'A' as int + i else if i < 36 then '0' as int + (i - 26)
                                else MARKS[i - 36] as int
  {
  }

  lemma HandledConcat(u: UiState, x: seq<BtnEvent>, y: seq<BtnEvent>)
    requires UiOk(u)
    ensures HandledAll(u, x + y) == HandledAll(HandledAll(u, x), y)
  {
    if y == [] {
      assert x + y == x;
    } else {
      assert (x + y)[..|x + y| - 1] == x + y[..|y| - 1];
      HandledConcat(u, x, y[..|y| - 1]);
    }
  }

  lemma HandledNext(u: UiState, x: seq<BtnEvent>, e: BtnEvent)
    requires UiOk(u)
    ensures HandledAll(u, x + [e]) == Handled(HandledAll(u, x), e)
  {
    assert (x + [e])[..|x|] == x;
  }

  lemma HandledOne(u: UiState, e: BtnEvent)
    requires UiOk(u)
    ensures HandledAll(u, [e]) == Handled(u, e)
  {
    var none: seq<BtnEvent> := [];
    HandledNext(u, none, e);
    assert none + [e] == [e];
  }

  // ---------- Choosing ----------

  predicate Moves(evts: seq<BtnEvent>) 
  {
    forall k | 0 <= k < |evts| :: evts[k] == UpShort || evts[k] == DownShort
  }

  /** Up towards the first of `n`, down towards the last, never beyond. */
  function Walk(from: nat, n: nat, evts: seq<BtnEvent>): (at: nat)
    requires from < n && Moves(evts)
    ensures at < n
  {
    if evts == [] then from
    else
      var r, e := evts[..|evts| - 1], evts[|evts| - 1];
      var at := Walk(from, n, r);
      if e == UpShort then (if at == 0 then 0 else at - 1) else if at == n - 1 then at else at + 1
  }

  /** Short presses up and down in the inbox only move the selection, within the list. */
  lemma {:induction false} SelectionWalks(u: UiState, evts: seq<BtnEvent>)
    requires UiOk(u) && u.screen == Inbox && u.inboxSel < u.peerCount && Moves(evts)
    ensures HandledAll(u, evts) == u.(inboxSel := Walk(u.inboxSel, u.peerCount, evts))
  {
    if evts != [] {
      SelectionWalks(u, evts[..|evts| - 1]);
    }
  }

  /** Opening a conversation marks exactly its live messages read and changes nothing else in the store. */
  lemma OpeningReads(st: Store, peer: u32, i: nat)
    requires InBounds(st) && i < MAX_MESSAGES
    ensures var b, m := MarkedConversation(st, peer), st.slots[i];
            && b == st.(slots := b.slots)
            && b.slots[i] == if i < st.count && m.state != Expired && (if m.incoming then m.sender else m.dest) == peer
                             then m.(read := true) else m
  {
    ConversationExact(Used(st), peer, MAX_MESSAGES);
    MarkedEach(st.slots, Conversation(Used(st), peer, MAX_MESSAGES), i);
    if i < st.count {
      assert Used(st)[i] == st.slots[i];
    }
  }

  /** Short presses in a conversation scroll it, within its messages. */
  lemma {:induction false} ScrollWalks(u: UiState, evts: seq<BtnEvent>)
    requires UiOk(u) && u.screen == ConversationView && u.convScroll < u.convCount && Moves(evts)
    ensures HandledAll(u, evts) == u.(convScroll := Walk(u.convScroll, u.convCount, evts))
  {
    if evts != [] {
      ScrollWalks(u, evts[..|evts| - 1]);
    }
  }

  // ---------- Writing ----------

  /** A confirmed text waits on the sending screen, whole, for its addressee. */
  ghost predicate Sends(u: UiState, dest: u32, text: seq<byte>)
  {
    && u.screen == SendingView && u.composeDest == dest && u.composeLen == |text| <= 160
    && u.composeBuf[..u.composeLen] == text
  }

  /** On the compose screen for `dest`, typing a text and a long press hand exactly that text over for sending. */
  lemma TypeAndConfirm(u: UiState, dest: u32, typing: seq<BtnEvent>)
    requires UiOk(u) && UiOk(Composing(u, dest)) && StaysComposing(typing) && TypedText(typing) != []
    ensures Sends(HandledAll(Composing(u, dest), typing + [OkLong]), dest, TypedText(typing))
  {
    ComposedText(u, dest, typing);
    HandledNext(Composing(u, dest), typing, OkLong);
  }

  /**
   * A reply: from the inbox, moves, a press that opens the conversation chosen, a press that answers, a typed text and
   * the long press that confirms it send exactly that text to exactly that correspondent.
   */
  lemma ReplyGoesToPeer(u: UiState, moves: seq<BtnEvent>, typing: seq<BtnEvent>)
    requires UiOk(u) && u.screen == Inbox && u.inboxSel < u.peerCount && Moves(moves)
    requires StaysComposing(typing) && TypedText(typing) != []
    ensures Sends(HandledAll(u, moves + [OkShort] + [OkShort] + (typing + [OkLong])),
                  u.peerList[Walk(u.inboxSel, u.peerCount, moves)], TypedText(typing))
  {
    var c := OpenAndAnswer(u, moves);
    TypeAndConfirm(c, u.peerList[Walk(u.inboxSel, u.peerCount, moves)], typing);
    HandledConcat(u, moves + [OkShort] + [OkShort], typing + [OkLong]);
  }

  lemma OpenAndAnswer(u: UiState, moves: seq<BtnEvent>) returns (c: UiState)
    requires UiOk(u) && u.screen == Inbox && u.inboxSel < u.peerCount && Moves(moves)
    ensures UiOk(c)
    ensures HandledAll(u, moves + [OkShort] + [OkShort])
            == Composing(c, u.peerList[Walk(u.inboxSel, u.peerCount, moves)])
  {
    SelectionWalks(u, moves);
    HandledNext(u, moves, OkShort);
    HandledNext(u, moves + [OkShort], OkShort);
    c := HandledAll(u, moves + [OkShort]);
  }

  /** A long press in the inbox writes to everyone. */
  lemma BroadcastGoesToAll(u: UiState, typing: seq<BtnEvent>)
    requires UiOk(u) && u.screen == Inbox && StaysComposing(typing) && TypedText(typing) != []
    ensures Sends(HandledAll(u, [OkLong] + (typing + [OkLong])), 0xFFFF_FFFF, TypedText(typing))
  {
    HandledOne(u, OkLong);
    assert HandledAll(u, [OkLong]) == Composing(u, BROADCAST_ID);
    TypeAndConfirm(u, BROADCAST_ID, typing);
    HandledConcat(u, [OkLong], typing + [OkLong]);
  }

  // ---------- The way back ----------

  /** From every screen of normal use at most two long presses up lead back to the inbox. */
  lemma BackToInbox(u: UiState) returns (n: nat)
    requires UiOk(u) && InUse(u.screen)
    ensures n <= 2 && HandledAll(u, Repeat(UpLong, n)).screen == Inbox
  {
    var none: seq<BtnEvent> := [];
    HandledNext(u, none, UpLong);
    HandledNext(u, [UpLong], UpLong);
    assert none + [UpLong] == [UpLong] == Repeat(UpLong, 1) && [UpLong] + [UpLong] == Repeat(UpLong, 2);
    n := if u.screen == Inbox then 0 else if u.screen in {WipeConfirm, TestView} then 2 else 1;
  }

  /** Down `k` times and a press in the settings. */
  lemma SettingsLead(u: UiState, k: nat)
    requires UiOk(u) && u.screen == Settings && u.settingsSel == 0 && k <= 4
    ensures var v := HandledAll(u, Repeat(DownShort, k) + [OkShort]);
            v.screen == if k == 0 then Network else if k == 3 then TestView
                        else if k == 4 then WipeConfirm else Settings
  {
    SettingsDown(u, k);
    HandledNext(u, Repeat(DownShort, k), OkShort);
    ItemChosen(u, k);
  }

  lemma ItemChosen(u: UiState, k: nat)
    requires UiOk(u) && u.screen == Settings && k <= 4
    ensures Handled(u.(settingsSel := k), OkShort).screen ==
            if k == 0 then Network else if k == 3 then TestView else if k == 4 then WipeConfirm else Settings
  {
  }

  lemma {:induction false} SettingsDown(u: UiState, k: nat)
    requires UiOk(u) && u.screen == Settings && u.settingsSel == 0 && k <= 4
    ensures HandledAll(u, Repeat(DownShort, k)) == u.(settingsSel := k)
  {
    if k > 0 {
      SettingsDown(u, k - 1);
      HandledNext(u, Repeat(DownShort, k - 1), DownShort);
      DownOnce(u, k);
      assert Repeat(DownShort, k) == Repeat(DownShort, k - 1) + [DownShort];
    }
  }

  lemma DownOnce(u: UiState, k: nat)
    requires UiOk(u) && u.screen == Settings && 0 < k <= 4
    ensures UiOk(u.(settingsSel := k - 1)) && Handled(u.(settingsSel := k - 1), DownShort) == u.(settingsSel := k)
  {
  }

  /** The menus: a long press down in the inbox shows the network; a long press up opens the settings at the top. */
  lemma MenusFromInbox(u: UiState, k: nat)
    requires UiOk(u) && u.screen == Inbox && k <= 4
    ensures HandledAll(u, [DownLong]).screen == Network
    ensures var v := HandledAll(u, [UpLong] + (Repeat(DownShort, k) + [OkShort]));
            v.screen == if k == 0 then Network else if k == 3 then TestView
                        else if k == 4 then WipeConfirm else Settings
  {
    HandledOne(u, DownLong);
    HandledOne(u, UpLong);
    SettingsLead(HandledAll(u, [UpLong]), k);
    HandledConcat(u, [UpLong], Repeat(DownShort, k) + [OkShort]);
  }

  /** A press on the brightness goes round the five levels 50, 100, 150, 200, 250. */
  lemma BrightnessCycles(u: UiState, level: nat)
    requires UiOk(u) && u.screen == Settings && u.settingsSel == 2 && level < 5
    ensures Handled(u.(brightness := 50 * (level + 1)), OkShort) == u.(brightness := 50 * ((level + 1) % 5 + 1))
  {
  }
}
