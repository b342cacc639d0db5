/** Which messages of a conversation go into a prompt: the newest always, older ones while they fit. */
module Prompt {
  import opened Text
  import opened Conversations

  const DEFAULT_CONTEXT := 4096
  const CONTEXT_OVERHEAD := 128
  const MIN_BUDGET := 256

  function TextTokens(text: string): nat {
    (|TrimSpace(text)| + 3) / 4
  }

  function MessageTokens(m: Message): nat {
    4 + TextTokens(m.role) + TextTokens(m.content)
  }

  function Tokens(ms: seq<Message>): nat {
    if ms == [] then 0 else MessageTokens(ms[0]) + Tokens(ms[1..])
  }

  /** The tokens left for the history once the answer, the system prompt and a fixed overhead are set aside. */
  function HistoryBudget(modelContext: int, systemPrompt: string, maxTokens: int): (budget: int)
    ensures budget >= MIN_BUDGET
  {
    var context := if modelContext <= 0 || modelContext > DEFAULT_CONTEXT then DEFAULT_CONTEXT else modelContext;
    var wanted := if maxTokens <= 0 then 256 else maxTokens;
    var reserve := if wanted > 2048 then 2048 else wanted;
    var budget := context - reserve - CONTEXT_OVERHEAD - TextTokens(systemPrompt);
    if budget < MIN_BUDGET then MIN_BUDGET else budget
  }

  /** The message cut to its last `4 * budget` characters. */
  function Truncated(m: Message, budget: int): Message {
    var m := Normalize(m);
    if budget <= 0 then m.(content := "")
    else if |m.content| <= budget * 4 then m
    else m.(content := TrimSpace(m.content[|m.content| - budget * 4..]))
  }

  /** The newest message, cut down when it is too long on its own. */
  function Fitted(m: Message, budget: int): Message {
    if MessageTokens(m) > budget then Truncated(m, budget) else m
  }

  /** What is selected of the messages from `i` on, oldest first: the newest always, each older one when it
      still fits beside what was already taken. */
  function Selected(ms: seq<Message>, budget: int, i: nat): seq<Message>
    requires i <= |ms|
    decreases |ms| - i
  {
    if i == |ms| then []
    else if i == |ms| - 1 then [Fitted(ms[i], budget)]
    else
      var newer := Selected(ms, budget, i + 1);
      if Tokens(newer) + MessageTokens(ms[i]) > budget then newer else [ms[i]] + newer
  }

  // ----- the preview -----

  function Reversed(ms: seq<Message>): (r: seq<Message>)
    ensures |r| == |ms| && forall i :: 0 <= i < |ms| ==> r[i] == ms[|ms| - 1 - i]
  {
    seq(|ms|, i requires 0 <= i < |ms| => ms[|ms| - 1 - i])
  }

  /** Swaps the first `n` elements end for end, in place. */
  method ReverseInPlace(a: array<Message>, n: nat)
    requires n <= a.Length
    modifies a
    ensures a[..n] == Reversed(old(a[..n])) && a[n..] == old(a[n..])
  {
    var left, right := 0, n - 1;
    while left < right
      invariant 0 <= left <= right + 1 && left + right == n - 1
      invariant forall k :: 0 <= k < left ==> a[k] == old(a[n - 1 - k]) && a[n - 1 - k] == old(a[k])
      invariant forall k :: left <= k <= right ==> a[k] == old(a[k])
      invariant a[n..] == old(a[n..])
    {
      a[left], a[right] := a[right], a[left];
      left, right := left + 1, right - 1;
    }
    forall k | 0 <= k < n ensures a[k] == old(a[n - 1 - k]) {
      if k >= left && k > right {
        assert 0 <= n - 1 - k < left;
      }
    }
  }

  datatype Preview = Preview(budget: int, total: nat, included: seq<Message>, tokens: nat, dropped: nat)

  /** Walks the window from the newest message to the oldest, collecting what fits into a buffer, and then turns
      the buffer round. */
  method ContextPreview(modelContext: int, systemPrompt: string, messages: seq<Message>, maxTokens: int)
    returns (preview: Preview)
    ensures preview.budget == HistoryBudget(modelContext, systemPrompt, maxTokens)
    ensures preview.total == |Window(messages)|
    ensures preview.included == Selected(Window(messages), preview.budget, 0)
    ensures preview.tokens == Tokens(preview.included)
    ensures preview.dropped + |preview.included| == preview.total
    ensures if exists d: nat :: d < |messages| && Shows(messages[d].content)
            then EndsWithNewest(messages, preview.included) else preview.included == []
  {
    hide MessageTokens, Truncated, HistoryBudget, Window, Shows, EndsWithNewest;
    PreviewEndsWithNewest(messages, HistoryBudget(modelContext, systemPrompt, maxTokens));
    var filtered := TrimMessages(messages);
    var budget := HistoryBudget(modelContext, systemPrompt, maxTokens);
    if |filtered| == 0 {
      return Preview(budget, 0, [], 0, 0);
    }
    var buffer, count, used := CollectNewestFirst(filtered, budget);
    ReverseInPlace(buffer, count);
    preview := Preview(budget, |filtered|, buffer[..count], used, |filtered| - count);
  }

  method CollectNewestFirst(filtered: seq<Message>, budget: int) returns (buffer: array<Message>, count: nat, used: nat)
    requires filtered != []
    ensures fresh(buffer) && count <= buffer.Length == |filtered|
    ensures Reversed(buffer[..count]) == Selected(filtered, budget, 0)
    ensures used == Tokens(Selected(filtered, budget, 0))
  {
    hide MessageTokens, Truncated, Selected, Tokens;
    buffer := new Message[|filtered|](i requires 0 <= i < |filtered| => filtered[i]);
    count, used := 0, 0;
    var i := |filtered|;
    SelectedOfNone(filtered, budget);
    while i > 0
      invariant 0 <= i <= |filtered| && count <= |filtered| - i
      invariant count == 0 <==> i == |filtered|
      invariant Reversed(buffer[..count]) == Selected(filtered, budget, i)
      invariant used == Tokens(Selected(filtered, budget, i))
    {
      i := i - 1;
      SelectStep(filtered, budget, i);
      var message := filtered[i];
      var cost := MessageTokens(message);
      if count > 0 && used + cost > budget {
        continue;
      }
      if count == 0 && cost > budget {
        message := Truncated(message, budget);
        cost := MessageTokens(message);
      }
      ghost var newer := buffer[..count];
      buffer[count] := message;
      count := count + 1;
      used := used + cost;
      assert buffer[..count] == newer + [message];
      assert Reversed(newer + [message]) == [message] + Reversed(newer);
    }
  }

  lemma SelectedOfNone(ms: seq<Message>, budget: int)
    ensures Selected(ms, budget, |ms|) == [] && Tokens([]) == 0
  {
  }

  /** One step of the selection, and what it costs. */
  lemma SelectStep(ms: seq<Message>, budget: int, i: nat)
    requires i < |ms|
    ensures var newer := Selected(ms, budget, i + 1);
      if i < |ms| - 1 && Tokens(newer) + MessageTokens(ms[i]) > budget then Selected(ms, budget, i) == newer
      else
        var m := if i == |ms| - 1 then Fitted(ms[i], budget) else ms[i];
        && Selected(ms, budget, i) == [m] + newer
        && Tokens([m] + newer) == MessageTokens(m) + Tokens(newer)
  {
    hide MessageTokens, Fitted;
    var newer := Selected(ms, budget, i + 1);
    var m := if i == |ms| - 1 then Fitted(ms[i], budget) else ms[i];
    assert ([m] + newer)[1..] == newer;
  }

  // ----- what the selection promises -----

  /** Where the selected messages stand in the window. */
  function Positions(ms: seq<Message>, budget: int, i: nat): seq<nat>
    requires i < |ms|
    decreases |ms| - i
  {
    if i == |ms| - 1 then [i]
    else if Tokens(Selected(ms, budget, i + 1)) + MessageTokens(ms[i]) > budget then Positions(ms, budget, i + 1)
    else [i] + Positions(ms, budget, i + 1)
  }

  /** Messages are taken at increasing positions, the newest one last. */
  lemma {:induction false} PositionsAscend(ms: seq<Message>, budget: int, i: nat)
    requires i < |ms|
    ensures var at := Positions(ms, budget, i);
      && at != [] && at[|at| - 1] == |ms| - 1
      && (forall k :: 0 <= k < |at| ==> i <= at[k] < |ms|)
      && (forall k, n :: 0 <= k < n < |at| ==> at[k] < at[n])
    decreases |ms| - i
  {
    hide MessageTokens, Selected, Tokens;
    if i < |ms| - 1 {
      PositionsAscend(ms, budget, i + 1);
    }
  }

  /** What stands there is what was selected; only the newest message may have been cut. */
  lemma {:induction false} SelectedAtPositions(ms: seq<Message>, budget: int, i: nat)
    requires i < |ms|
    ensures var at, included := Positions(ms, budget, i), Selected(ms, budget, i);
      && |at| == |included| > 0
      && included[|at| - 1] == Fitted(ms[|ms| - 1], budget)
      && forall k :: 0 <= k < |at| - 1 ==> at[k] < |ms| && included[k] == ms[at[k]]
    decreases |ms| - i
  {
    hide MessageTokens, Fitted, Tokens, Selected;
    SelectStep(ms, budget, i);
    if i < |ms| - 1 {
      SelectedAtPositions(ms, budget, i + 1);
    } else {
      SelectedOfNone(ms, budget);
    }
  }

  /** No message left out would still fit. */
  lemma {:induction false} SelectionIsMaximal(ms: seq<Message>, budget: int, i: nat, d: nat)
    requires i <= d < |ms| && d !in Positions(ms, budget, i)
    ensures Tokens(Selected(ms, budget, i)) + MessageTokens(ms[d]) > budget
    decreases |ms| - i
  {
    hide MessageTokens, Fitted, Selected, Tokens;
    SelectStep(ms, budget, i);
    if i < |ms| - 1 {
      if d > i {
        assert d !in Positions(ms, budget, i + 1);
        SelectionIsMaximal(ms, budget, i + 1, d);
      }
    }
  }

  /** The selection takes messages in order, at increasing positions, the newest one at the end. */
  lemma SelectedInOrder(ms: seq<Message>, budget: int, i: nat) returns (at: seq<nat>)
    requires i < |ms|
    ensures |at| == |Selected(ms, budget, i)| > 0
    ensures forall k :: 0 <= k < |at| ==> i <= at[k] < |ms|
    ensures forall k, n :: 0 <= k < n < |at| ==> at[k] < at[n]
    ensures at[|at| - 1] == |ms| - 1 && Selected(ms, budget, i)[|at| - 1] == Fitted(ms[|ms| - 1], budget)
    ensures forall k :: 0 <= k < |at| - 1 ==> Selected(ms, budget, i)[k] == ms[at[k]]
    ensures forall d :: i <= d < |ms| && d !in at ==> Tokens(Selected(ms, budget, i)) + MessageTokens(ms[d]) > budget
  {
    hide MessageTokens, Fitted, Selected, Tokens, Positions;
    at := Positions(ms, budget, i);
    PositionsAscend(ms, budget, i);
    SelectedAtPositions(ms, budget, i);
    forall d | i <= d < |ms| && d !in at ensures Tokens(Selected(ms, budget, i)) + MessageTokens(ms[d]) > budget {
      SelectionIsMaximal(ms, budget, i, d);
    }
  }

  lemma RoleIsShort(m: Message)
    requires IsNormal(m)
    ensures TextTokens(m.role) <= 3
  {
    TrimSpaceTrims(m.role);
  }

  /** Cutting a visible message keeps a visible suffix of its content, of at most `budget` tokens. */
  lemma TruncationKeepsSuffix(m: Message, budget: int)
    requires IsNormal(m) && budget > 0
    ensures Truncated(m, budget).role == m.role && Truncated(m, budget).content != ""
    ensures |Truncated(m, budget).content| <= |m.content|
    ensures Truncated(m, budget).content == m.content[|m.content| - |Truncated(m, budget).content|..]
    ensures TextTokens(Truncated(m, budget).content) <= budget
  {
    hide NormalizeRole;
    NormalizeIsStable(m);
    if |m.content| > budget * 4 {
      var tail := m.content[|m.content| - budget * 4..];
      SuffixTrims(tail);
      TrimSpaceTrims(TrimSpace(tail));
    } else {
      TrimSpaceTrims(m.content);
    }
  }

  /** A string that ends visibly trims to a suffix of itself, and not to nothing. */
  lemma SuffixTrims(s: string)
    requires s != "" && !IsSpace(s[|s| - 1])
    ensures TrimSpace(s) != "" && |TrimSpace(s)| <= |s| && TrimSpace(s) == s[|s| - |TrimSpace(s)|..]
  {
    hide IsSpace;
    TrimKeepsVisibleEnd(s);
    TrimLeftShape(s);
    TrimRightStops(TrimLeft(s)) by {
      TrimLeftKeepsVisibleEnd(s);
    }
  }

  lemma TrimRightStops(s: string)
    requires s != "" && !IsSpace(s[|s| - 1])
    ensures TrimRight(s) == s
  {
  }

  /** The selection costs at most the budget, or up to seven tokens more when the newest message alone had to be cut:
      a cut message still carries its fixed cost and its role. */
  lemma {:induction false} SelectionFitsBudget(ms: seq<Message>, budget: int, i: nat)
    requires i <= |ms| && budget > 0 && forall m :: m in ms ==> IsNormal(m)
    ensures Tokens(Selected(ms, budget, i)) <= budget + 7
    ensures i < |ms| && MessageTokens(ms[|ms| - 1]) <= budget ==> Tokens(Selected(ms, budget, i)) <= budget
    decreases |ms| - i
  {
    hide IsNormal, TextTokens, Truncated;
    if i == |ms| {
    } else if i == |ms| - 1 {
      TruncationKeepsSuffix(ms[i], budget);
      RoleIsShort(ms[i]);
    } else {
      SelectionFitsBudget(ms, budget, i + 1);
      var newer := Selected(ms, budget, i + 1);
      assert ([ms[i]] + newer)[1..] == newer;
    }
  }

  /** The selection keeps to its budget if and only if the newest message, cut if need be, does: cutting looks at the
      content alone, not at the role and the fixed cost of a message. */
  lemma {:induction false} BudgetIsMetExactlyWhen(ms: seq<Message>, budget: int, i: nat)
    requires i < |ms|
    ensures Tokens(Selected(ms, budget, i)) <= budget <==> MessageTokens(Fitted(ms[|ms| - 1], budget)) <= budget
    decreases |ms| - i
  {
    hide MessageTokens, Fitted, Selected, Tokens;
    SelectStep(ms, budget, i);
    if i == |ms| - 1 {
      SelectedOfNone(ms, budget);
    } else {
      BudgetIsMetExactlyWhen(ms, budget, i + 1);
      GrowsOnlyWithin(ms, budget, i);
    }
  }

  /** Older messages never turn the comparison: they are added only while the budget lasts. */
  lemma GrowsOnlyWithin(ms: seq<Message>, budget: int, i: nat)
    requires i < |ms| - 1
    ensures Tokens(Selected(ms, budget, i)) <= budget <==> Tokens(Selected(ms, budget, i + 1)) <= budget
  {
    hide MessageTokens, Fitted, Selected, Tokens;
    SelectStep(ms, budget, i);
  }

  /** For a normalized message, in terms of its lengths: it fits as it is, or what is left of its last 4 * budget
      characters once trimmed is shorter than the budget by its role and the fixed cost. */
  lemma CutFitsExactlyWhen(m: Message, budget: int)
    requires IsNormal(m) && budget > 0
    ensures MessageTokens(Fitted(m, budget)) <= budget
      <==> (MessageTokens(m) <= budget || TextTokens(CutContent(m, budget)) <= budget - 4 - TextTokens(m.role))
  {
    hide NormalizeRole;
    NormalizeIsStable(m);
    TrimSpaceTrims(m.content);
  }

  /** The content a cut leaves. */
  function CutContent(m: Message, budget: nat): string {
    if |m.content| <= budget * 4 then m.content else TrimSpace(m.content[|m.content| - budget * 4..])
  }

  /** The smallest budget, and a message of 1025 letters: after the cut it still costs 261 tokens, five too many. */
  lemma CutCanExceedBudget(letters: string)
    requires |letters| == 1025 && forall c :: c in letters ==> c == 'x'
    ensures var m := Message("user", letters);
      && IsNormal(m) && Tokens(Selected([m], MIN_BUDGET, 0)) == 261 > MIN_BUDGET
  {
    var m := Message("user", letters);
    var tail := letters[1..];
    assert letters[0] == 'x' && letters[1024] == 'x' && tail[0] == 'x' && tail[1023] == 'x' by {
      assert forall i :: 0 <= i < 1025 ==> letters[i] in letters;
    }
    TrimSpaceTrims(letters);
    TrimSpaceTrims(tail);
    TrimSpaceTrims("user");
    KnownRoleStays("user");
    SelectedOfNone([m], MIN_BUDGET);
    SelectStep([m], MIN_BUDGET, 0);
  }

  /** The prompt of any conversation: in order, ending with the newest message or a visible suffix of it, within the
      budget and seven tokens, and with nothing left out that would still fit. */
  lemma PreviewIsBest(messages: seq<Message>, budget: int) returns (at: seq<nat>)
    requires budget >= MIN_BUDGET && Window(messages) != []
    ensures var ms := Window(messages); var included := Selected(ms, budget, 0); var newest := ms[|ms| - 1];
      && |at| == |included| > 0
      && (forall k :: 0 <= k < |at| ==> at[k] < |ms|) && (forall k, n :: 0 <= k < n < |at| ==> at[k] < at[n])
      && (forall k :: 0 <= k < |at| - 1 ==> included[k] == ms[at[k]])
      && at[|at| - 1] == |ms| - 1
      && IsSuffixOf(included[|at| - 1], newest)
      && Tokens(included) <= budget + 7
      && forall d :: 0 <= d < |ms| && d !in at ==> Tokens(included) + MessageTokens(ms[d]) > budget
  {
    hide Cleaned, IsNormal, MessageTokens, Truncated, Selected, Tokens, Normalize;
    var ms := Window(messages);
    CleanedIsNormal(messages);
    at := SelectedInOrder(ms, budget, 0);
    SelectionFitsBudget(ms, budget, 0);
    TruncationKeepsSuffix(ms[|ms| - 1], budget);
    NormalIsVisible(ms[|ms| - 1]);
  }

  /** The same message, or one with only a visible end of its content left. */
  predicate IsSuffixOf(cut: Message, m: Message) {
    && cut.role == m.role && cut.content != "" && |cut.content| <= |m.content|
    && cut.content == m.content[|m.content| - |cut.content|..]
  }

  lemma NormalIsVisible(m: Message)
    requires IsNormal(m)
    ensures IsSuffixOf(m, m)
  {
  }

  // ----- what it says of the messages given -----

  /** Message `d` is the last one given that shows. */
  ghost predicate IsNewestShown(ms: seq<Message>, d: nat) {
    d < |ms| && Shows(ms[d].content) && forall e: nat :: d < e < |ms| ==> !Shows(ms[e].content)
  }

  /** The prompt ends with the newest message that shows, as it is stored, or with a visible end of it. */
  ghost predicate EndsWithNewest(ms: seq<Message>, included: seq<Message>) {
    included != [] && exists d: nat, newest ::
      IsNewestShown(ms, d) && IsStoredForm(ms[d], newest) && IsSuffixOf(included[|included| - 1], newest)
  }

  lemma NewestOfWindow(ms: seq<Message>) returns (d: nat)
    requires Window(ms) != []
    ensures IsNewestShown(ms, d) && IsStoredForm(ms[d], Window(ms)[|Window(ms)| - 1])
  {
    hide Window, Shows, IsStoredForm;
    var at := WindowMeans(ms);
    d := at[|at| - 1];
    forall e: nat | d < e < |ms| ensures !Shows(ms[e].content) {
      assert e !in at;
    }
  }

  /** The window is empty exactly when no message shows. */
  lemma EmptyWindow(ms: seq<Message>)
    ensures Window(ms) != [] <==> exists d: nat :: d < |ms| && Shows(ms[d].content)
  {
    hide Window, Shows, IsStoredForm;
    var at := WindowMeans(ms);
    if Window(ms) != [] {
      assert Shows(ms[at[0]].content);
    }
  }

  lemma PreviewEndsWithNewest(ms: seq<Message>, budget: int)
    requires budget >= MIN_BUDGET
    ensures if exists d: nat :: d < |ms| && Shows(ms[d].content)
            then EndsWithNewest(ms, Selected(Window(ms), budget, 0)) else Window(ms) == []
  {
    hide Window, Shows, IsStoredForm, Selected, IsSuffixOf;
    EmptyWindow(ms);
    if Window(ms) != [] {
      var d := NewestOfWindow(ms);
      var at := PreviewIsBest(ms, budget);
      assert EndsWithNewest(ms, Selected(Window(ms), budget, 0));
    }
  }

  /** A text costs a token for every four characters begun, white space around it aside. */
  lemma TokensAreQuarters(text: string)
    ensures 4 * (TextTokens(text) - 1) < |TrimSpace(text)| <= 4 * TextTokens(text)
  {
  }

  /** The answer's reserve: what is asked for, 256 by default, and at most 2048. */
  function Reserve(maxTokens: int): int {
    if maxTokens <= 0 then 256 else if maxTokens > 2048 then 2048 else maxTokens
  }

  /** The budget, the answer, the system prompt and 128 tokens fill the context, which is at most 4096 tokens; unless
      that leaves less than 256, which is then the budget. */
  lemma BudgetFillsContext(modelContext: int, systemPrompt: string, maxTokens: int)
    ensures var context := if 0 < modelContext <= 4096 then modelContext else 4096;
      var rest := context - Reserve(maxTokens) - TextTokens(systemPrompt) - 128;
      HistoryBudget(modelContext, systemPrompt, maxTokens) == if rest >= 256 then rest else 256
  {
  }
}
