/** Normalising the pages of a newest-first mailbox into the messages of a time window. */
module MailRecipe {
  import opened Options

  datatype Result<+T> = Ok(value: T) | Err(error: Error)

  datatype Error =
    | NoPages
    | BadBounds
    | NoURL(page: nat)
    | Jumped(page: nat)
    | Truncated(page: nat)
    | NoId
    | BadTimestamp
    | Unsorted(page: nat)
    | NotComplete(page: nat)
    | EndedEarly

  /** Nanoseconds since the zero time; None for a timestamp that does not parse. */
  datatype Message = Message(id: string, received: Option<int>)

  datatype Page = Page(url: string, nextURL: string, messages: seq<Message>, complete: bool, truncated: bool)

  const ZERO_TIME: int := 0

  function Messages(pages: seq<Page>): seq<Message> {
    if pages == [] then [] else Messages(pages[..|pages| - 1]) + pages[|pages| - 1].messages
  }

  predicate IsOld(m: Message, since: int) {
    m.received.Some? && m.received.value < since
  }

  predicate Crosses(page: Page, since: int) {
    exists m :: m in page.messages && IsOld(m, since)
  }

  /** The plain filter: since <= received < until, in the order given. */
  function InWindow(ms: seq<Message>, since: int, until: int): seq<Message> {
    if ms == [] then []
    else
      var last := ms[|ms| - 1];
      InWindow(ms[..|ms| - 1], since, until)
      + (if last.received.Some? && since <= last.received.value < until then [last] else [])
  }

  /** Each message is no newer than the one before it; nothing is required after the zero time. */
  predicate Ordered(ms: seq<Message>) {
    forall i :: 0 < i < |ms| && ms[i - 1].received.Some? && ms[i].received.Some? ==>
                  ms[i - 1].received.value != ZERO_TIME ==> ms[i].received.value <= ms[i - 1].received.value
  }

  predicate Readable(m: Message) {
    m.id != "" && m.received.Some?
  }

  /** Page i is the one the page before it named, it is whole, and it is readable in order. */
  predicate Accepted(pages: seq<Page>, i: nat)
    requires i < |pages|
  {
    && pages[i].url != ""
    && (i > 0 ==> pages[i].url == pages[i - 1].nextURL)
    && !pages[i].truncated
    && (forall m :: m in pages[i].messages ==> Readable(m))
    && Ordered(Messages(pages[..i + 1]))
  }

  /** The first n pages are accepted, stay inside the window's lower bound and name a next page. */
  predicate Passed(pages: seq<Page>, since: int, n: nat)
    requires n <= |pages|
  {
    forall i :: 0 <= i < n ==> Accepted(pages, i) && !Crosses(pages[i], since) && pages[i].nextURL != ""
  }

  predicate Ends(page: Page, since: int) {
    Crosses(page, since) || (page.nextURL == "" && page.complete)
  }

  /** Page k is where reading stops with success. */
  predicate StopsAt(pages: seq<Page>, since: int, until: int, k: nat) {
    since < until && k < |pages| && Passed(pages, since, k) && Accepted(pages, k) && Ends(pages[k], since)
  }

  /** At most one page is where reading stops. */
  lemma StopIsUnique(pages: seq<Page>, since: int, until: int, j: nat, k: nat)
    requires StopsAt(pages, since, until, j) && StopsAt(pages, since, until, k)
    ensures j == k
  {
    hide Accepted, Crosses;
  }

  /** Once the pages before n have passed, page n decides: refused, it ends every hope of success. */
  lemma RefusedAt(pages: seq<Page>, since: int, until: int, n: nat)
    requires n <= |pages| && Passed(pages, since, n)
    requires n == |pages| || !Accepted(pages, n) || (pages[n].nextURL == "" && !Ends(pages[n], since))
    ensures forall k :: !StopsAt(pages, since, until, k)
  {
    hide Accepted, Crosses;
    assert forall k: nat :: Passed(pages, since, n) && n < k <= |pages| && Passed(pages, since, k) ==>
      Accepted(pages, n);
  }

  lemma MessagesStep(pages: seq<Page>, i: nat)
    requires i < |pages|
    ensures Messages(pages[..i + 1]) == Messages(pages[..i]) + pages[i].messages
  {
    assert pages[..i + 1][..i] == pages[..i];
  }

  /** Out of the window, a list of messages leaves nothing. */
  lemma {:induction false} NothingInWindow(ms: seq<Message>, since: int, until: int)
    requires forall m :: m in ms ==> IsOld(m, since)
    ensures InWindow(ms, since, until) == []
  {
    if ms != [] {
      assert ms[|ms| - 1] in ms;
      NothingInWindow(ms[..|ms| - 1], since, until);
    }
  }

  lemma InWindowStep(ms: seq<Message>, m: Message, since: int, until: int)
    ensures InWindow(ms + [m], since, until)
            == InWindow(ms, since, until) + (if m.received.Some? && since <= m.received.value < until then [m] else [])
  {
    assert (ms + [m])[..|ms|] == ms;
  }

  /** The time the order check remembers after these messages. */
  function Previous(ms: seq<Message>): int {
    if ms == [] || ms[|ms| - 1].received.None? then ZERO_TIME else ms[|ms| - 1].received.value
  }

  /** A message newer than the one before it spoils every list it is in. */
  lemma Spoiled(seen: seq<Message>, m: Message, rest: seq<Message>)
    requires m.received.Some? && Previous(seen) != ZERO_TIME && m.received.value > Previous(seen)
    ensures !Ordered(seen + [m] + rest)
  {
    var all := seen + [m] + rest;
    assert all[|seen| - 1] == seen[|seen| - 1] && all[|seen|] == m;
  }

  /** The first thing wrong with a page's messages, after those already seen. */
  function MessageProblem(seen: seq<Message>, ms: seq<Message>, number: nat): Option<Error>
    decreases |ms|
  {
    if ms == [] then None
    else
      var m := ms[0];
      if m.id == "" then Some(NoId)
      else if m.received.None? then Some(BadTimestamp)
      else if Previous(seen) != ZERO_TIME && m.received.value > Previous(seen) then Some(Unsorted(number))
      else MessageProblem(seen + [m], ms[1..], number)
  }

  /** The first thing wrong with page i, after the pages before it. */
  function PageProblem(pages: seq<Page>, i: nat): Option<Error>
    requires i < |pages|
  {
    if pages[i].url == "" then Some(NoURL(i))
    else if i > 0 && pages[i].url != pages[i - 1].nextURL then Some(Jumped(i))
    else if pages[i].truncated then Some(Truncated(i))
    else MessageProblem(Messages(pages[..i]), pages[i].messages, i)
  }

  /** The page that decides is the only one the pages before it lead to. */
  lemma Decides(pages: seq<Page>, since: int, n: nat)
    requires n < |pages| && Passed(pages, since, n)
    requires !Accepted(pages, n) || pages[n].nextURL == "" || Crosses(pages[n], since)
    ensures forall j: nat :: j < |pages| && j != n && Passed(pages, since, j) ==>
      Accepted(pages, j) && pages[j].nextURL != ""
  {
    hide Crosses;
    assert forall j: nat :: n < j <= |pages| && Passed(pages, since, j) ==>
      Accepted(pages, n) && !Crosses(pages[n], since) && pages[n].nextURL != "";
  }

  lemma Extended(seen: seq<Message>, m: Message)
    requires Ordered(seen) && m.received.Some?
    requires Previous(seen) == ZERO_TIME || m.received.value <= Previous(seen)
    ensures Ordered(seen + [m]) && Previous(seen + [m]) == m.received.value
  {
  }

  method NormalizeMicrosoftMailRecipe(pages: seq<Page>, since: int, until: int) returns (r: Result<seq<Message>>)
    ensures r.Ok? <==> exists k :: StopsAt(pages, since, until, k)
    ensures forall k :: StopsAt(pages, since, until, k) ==> r == Ok(InWindow(Messages(pages[..k + 1]), since, until))
    ensures r == Err(NoPages) <==> pages == []
    ensures r == Err(BadBounds) <==> pages != [] && since >= until
    ensures forall j: nat :: since < until && j < |pages| && Passed(pages, since, j) && !Accepted(pages, j) ==>
      r.Err? && PageProblem(pages, j) == Some(r.error)
    ensures forall j: nat ::
      (since < until && j < |pages| && Passed(pages, since, j) && Accepted(pages, j)
       && pages[j].nextURL == "" && !Ends(pages[j], since)) ==> r == Err(NotComplete(j))
    ensures r == Err(EndedEarly) <==> pages != [] && since < until && Passed(pages, since, |pages|)
  {
    hide Messages, InWindow, Ordered, Crosses, MessageProblem;
    if |pages| == 0 { return Err(NoPages); }
    if since >= until { return Err(BadBounds); }
    var messages: seq<Message> := [];
    var expectedURL := "";
    var previous := ZERO_TIME;
    EmptyLists(pages, since, until);
    for i := 0 to |pages|
      invariant Passed(pages, since, i)
      invariant i > 0 ==> expectedURL == pages[i - 1].nextURL
      invariant Ordered(Messages(pages[..i]))
      invariant previous == Previous(Messages(pages[..i]))
      invariant messages == InWindow(Messages(pages[..i]), since, until)
    {
      var page := pages[i];
      if page.url == "" { RefusedAt(pages, since, until, i); Decides(pages, since, i); return Err(NoURL(i)); }
      if i == 0 { expectedURL := page.url; }
      if page.url != expectedURL { RefusedAt(pages, since, until, i); Decides(pages, since, i); return Err(Jumped(i)); }
      if page.truncated { RefusedAt(pages, since, until, i); Decides(pages, since, i); return Err(Truncated(i)); }
      var error, kept, last, crossed := ReadPage(Messages(pages[..i]), page.messages, i, messages, previous, since,
          until);
      MessagesStep(pages, i);
      if error.Some? {
        assert !Accepted(pages, i);
        RefusedAt(pages, since, until, i);
        Decides(pages, since, i);
        return Err(error.value);
      }
      messages, previous := kept, last;
      CrossedIsCrosses(page, since);
      if crossed {
        assert StopsAt(pages, since, until, i);
        OnlyStop(pages, since, until, i);
        Decides(pages, since, i);
        return Ok(messages);
      }
      if page.nextURL == "" {
        Decides(pages, since, i);
        if !page.complete { RefusedAt(pages, since, until, i); return Err(NotComplete(i)); }
        assert StopsAt(pages, since, until, i);
        OnlyStop(pages, since, until, i);
        return Ok(messages);
      }
      expectedURL := page.nextURL;
    }
    RefusedAt(pages, since, until, |pages|);
    r := Err(EndedEarly);
  }

  lemma NoMessageProblem(number: nat)
    ensures forall s: seq<Message> :: MessageProblem(s, [], number) == None
  {
  }

  lemma MessageProblemStep(seen: seq<Message>, ms: seq<Message>, number: nat)
    requires ms != []
    ensures MessageProblem(seen, ms, number)
            == if ms[0].id == "" then Some(NoId)
               else if ms[0].received.None? then Some(BadTimestamp)
               else if Previous(seen) != ZERO_TIME && ms[0].received.value > Previous(seen) then Some(Unsorted(number))
               else MessageProblem(seen + [ms[0]], ms[1..], number)
  {
    hide Previous;
  }

  lemma EmptyLists(pages: seq<Page>, since: int, until: int)
    ensures Messages(pages[..0]) == [] && Ordered([]) && InWindow([], since, until) == []
  {
  }

  lemma CrossedIsCrosses(page: Page, since: int)
    ensures Crosses(page, since) <==> exists m :: m in page.messages && IsOld(m, since)
  {
  }

  lemma OnlyStop(pages: seq<Page>, since: int, until: int, k: nat)
    requires StopsAt(pages, since, until, k)
    ensures forall j :: StopsAt(pages, since, until, j) ==> j == k
    ensures !Passed(pages, since, |pages|)
  {
    forall j | StopsAt(pages, since, until, j) ensures j == k {
      StopIsUnique(pages, since, until, j, k);
    }
  }

  /** One page's messages, after those already `seen`: refused, or appended to what is kept. */
  method ReadPage(ghost seen: seq<Message>, page: seq<Message>, number: nat, kept: seq<Message>, previous: int,
      since: int, until: int)
    returns (error: Option<Error>, kept': seq<Message>, previous': int, crossed: bool)
    requires Ordered(seen) && previous == Previous(seen) && kept == InWindow(seen, since, until)
    ensures error.None? <==> (forall m :: m in page ==> Readable(m)) && Ordered(seen + page)
    ensures error.None? ==> kept' == InWindow(seen + page, since, until) && previous' == Previous(seen + page)
    ensures error.None? ==> (crossed <==> exists m :: m in page && IsOld(m, since))
    ensures error == MessageProblem(seen, page, number)
    ensures error.Some? ==> error.value in {NoId, BadTimestamp, Unsorted(number)}
  {
    hide InWindow, Ordered, Previous, MessageProblem;
    NoMessageProblem(number);
    assert page[0..] == page;
    kept', previous', crossed, error := kept, previous, false, None;
    assert seen + page[..0] == seen;
    for i := 0 to |page|
      invariant forall m :: m in page[..i] ==> Readable(m)
      invariant Ordered(seen + page[..i])
      invariant previous' == Previous(seen + page[..i]) && kept' == InWindow(seen + page[..i], since, until)
      invariant crossed <==> exists m :: m in page[..i] && IsOld(m, since)
      invariant error == None
      invariant MessageProblem(seen, page, number) == MessageProblem(seen + page[..i], page[i..], number)
    {
      var message := page[i];
      ghost var before := seen + page[..i];
      assert page[..i + 1] == page[..i] + [message] && seen + page[..i + 1] == before + [message];
      assert seen + page == before + [message] + page[i + 1..];
      assert message in page;
      assert page[i..][0] == message && page[i..][1..] == page[i + 1..];
      MessageProblemStep(before, page[i..], number);
      if message.id == "" { error := Some(NoId); return; }
      if message.received.None? { error := Some(BadTimestamp); return; }
      var received := message.received.value;
      if previous' != ZERO_TIME && received > previous' {
        Spoiled(before, message, page[i + 1..]);
        error := Some(Unsorted(number));
        return;
      }
      Extended(before, message);
      InWindowStep(before, message, since, until);
      previous' := received;
      if received < since {
        assert IsOld(message, since);
        crossed := true;
        continue;
      }
      if received < until { kept' := kept' + [message]; }
    }
    assert page[..|page|] == page && page[|page|..] == [];
  }

  // ---- The whole mailbox -------------------------------------------------------------------------------

  /** A page as it is served, and the messages the mailbox really holds there. */
  datatype Shelf = Shelf(page: Page, contents: seq<Message>)

  function Contents(shelves: seq<Shelf>): seq<Message> {
    if shelves == [] then [] else Contents(shelves[..|shelves| - 1]) + shelves[|shelves| - 1].contents
  }

  predicate NewestFirst(ms: seq<Message>) {
    && (forall m :: m in ms ==> m.received.Some?)
    && (forall i, j :: 0 <= i < j < |ms| ==> ms[j].received.value <= ms[i].received.value)
  }

  /**
   * A newest-first mailbox laid out on pages. A page that is served short says it is truncated, and one
   * whose link onwards was lost does not say it is complete.
   */
  predicate Mailbox(shelves: seq<Shelf>) {
    && NewestFirst(Contents(shelves))
    && (forall i :: 0 <= i < |shelves| && !shelves[i].page.truncated ==>
           shelves[i].page.messages == shelves[i].contents)
    && (forall i :: 0 <= i < |shelves| && shelves[i].page.nextURL == "" && shelves[i].page.complete ==>
           i == |shelves| - 1)
    && (forall i :: 0 <= i < |shelves| && shelves[i].page.nextURL != "" ==>
          i + 1 < |shelves| && shelves[i + 1].page.url == shelves[i].page.nextURL)
    && (forall i, j :: 0 <= i < j < |shelves| ==> shelves[i].page.url != shelves[j].page.url)
  }

  /** The pages handed over come from the mailbox, beginning with its first, in whatever order. */
  predicate TakenFrom(pages: seq<Page>, shelves: seq<Shelf>) {
    && (pages != [] ==> shelves != [] && pages[0] == shelves[0].page)
    && (forall i :: 0 <= i < |pages| ==> exists j :: 0 <= j < |shelves| && pages[i] == shelves[j].page)
  }

  /** Accepted pages are the mailbox's own first pages, in its order, and show all that is there. */
  lemma {:induction false} ReadInOrder(pages: seq<Page>, shelves: seq<Shelf>, since: int, k: nat)
    requires Mailbox(shelves) && TakenFrom(pages, shelves) && k < |pages|
    requires Passed(pages, since, k) && Accepted(pages, k)
    ensures k < |shelves| && pages[k] == shelves[k].page
    ensures Messages(pages[..k + 1]) == Contents(shelves[..k + 1])
  {
    hide Ordered, NewestFirst, Crosses, Messages, Contents, Readable;
    MessagesStep(pages, k);
    NothingRead(pages, shelves);
    if k > 0 {
      assert Accepted(pages, k - 1);
      ReadInOrder(pages, shelves, since, k - 1);
      var j :| 0 <= j < |shelves| && pages[k] == shelves[j].page;
      assert shelves[k].page.url == pages[k].url;
    }
    ContentsStep(shelves, k);
  }

  lemma NothingRead(pages: seq<Page>, shelves: seq<Shelf>)
    ensures Messages(pages[..0]) == [] && Contents(shelves[..0]) == []
  {
  }

  lemma ContentsStep(shelves: seq<Shelf>, i: nat)
    requires i < |shelves|
    ensures Contents(shelves[..i + 1]) == Contents(shelves[..i]) + shelves[i].contents
  {
    assert shelves[..i + 1][..i] == shelves[..i];
  }

  lemma {:induction false} InWindowConcat(a: seq<Message>, b: seq<Message>, since: int, until: int)
    ensures InWindow(a + b, since, until) == InWindow(a, since, until) + InWindow(b, since, until)
  {
    hide InWindow;
    if b == [] {
      assert a + b == a;
      InWindowEmpty(since, until);
    } else {
      var n := |b| - 1;
      InWindowConcat(a, b[..n], since, until);
      assert a + b == (a + b[..n]) + [b[n]] && b == b[..n] + [b[n]];
      InWindowStep(a + b[..n], b[n], since, until);
      InWindowStep(b[..n], b[n], since, until);
    }
  }

  lemma {:induction false} ContentsSplit(shelves: seq<Shelf>, k: nat)
    requires k <= |shelves|
    ensures Contents(shelves[..k]) <= Contents(shelves)
  {
    if k == |shelves| {
      assert shelves[..k] == shelves;
    } else {
      var n := |shelves| - 1;
      ContentsSplit(shelves[..n], k);
      assert shelves[..n][..k] == shelves[..k];
    }
  }

  /** Below a message older than `since`, a newest-first list has nothing for the window. */
  lemma NothingBelow(ms: seq<Message>, n: nat, m: Message, since: int, until: int)
    requires NewestFirst(ms) && n <= |ms| && m in ms[..n] && IsOld(m, since)
    ensures InWindow(ms[n..], since, until) == []
  {
    var i :| 0 <= i < n && ms[i] == m;
    forall x | x in ms[n..] ensures IsOld(x, since) {
      var j :| n <= j < |ms| && ms[j] == x;
    }
    NothingInWindow(ms[n..], since, until);
  }

  /**
   * When the pages are accepted, the result is exactly the messages of the window in the whole mailbox,
   * pages never read included.
   */
  lemma FiltersWholeMailbox(pages: seq<Page>, shelves: seq<Shelf>, since: int, until: int, k: nat)
    requires Mailbox(shelves) && TakenFrom(pages, shelves) && StopsAt(pages, since, until, k)
    ensures InWindow(Messages(pages[..k + 1]), since, until) == InWindow(Contents(shelves), since, until)
  {
    hide Messages, Contents, Ordered, InWindow;
    ReadInOrder(pages, shelves, since, k);
    ContentsSplit(shelves, k + 1);
    var all, n := Contents(shelves), |Contents(shelves[..k + 1])|;
    assert Contents(shelves[..k + 1]) == all[..n] && all == all[..n] + all[n..];
    InWindowConcat(all[..n], all[n..], since, until);
    if Crosses(pages[k], since) {
      var m :| m in pages[k].messages && IsOld(m, since);
      MessagesStep(pages, k);
      assert m in all[..n];
      NothingBelow(all, n, m, since, until);
    } else {
      assert shelves[..k + 1] == shelves;
      assert all[n..] == [];
      InWindowEmpty(since, until);
    }
  }

  lemma InWindowEmpty(since: int, until: int)
    ensures InWindow([], since, until) == []
  {
  }

  function Pages(shelves: seq<Shelf>): (r: seq<Page>)
    ensures |r| == |shelves| && forall i :: 0 <= i < |r| ==> r[i] == shelves[i].page
  {
    seq(|shelves|, i requires 0 <= i < |shelves| => shelves[i].page)
  }

  /** A page of the mailbox with nothing wrong about it. */
  predicate Sound(shelf: Shelf) {
    && shelf.page.url != "" && !shelf.page.truncated
    && (shelf.page.nextURL == "" ==> shelf.page.complete)
    && (forall m :: m in shelf.page.messages ==> m.id != "")
  }

  /** Nothing is refused without a reason: a mailbox of sound pages, all handed over, is accepted. */
  lemma SoundMailboxAccepted(shelves: seq<Shelf>, since: int, until: int)
    requires shelves != [] && since < until && Mailbox(shelves) && forall i :: 0 <= i < |shelves| ==> Sound(shelves[i])
    ensures exists k :: StopsAt(Pages(shelves), since, until, k)
  {
    hide Messages, Contents, Ordered, Crosses;
    var pages := Pages(shelves);
    forall i | 0 <= i < |pages| ensures Accepted(pages, i) {
      SoundPageAccepted(shelves, i);
    }
    var k := FirstEnd(pages, since);
    assert StopsAt(pages, since, until, k);
  }

  function FirstEnd(pages: seq<Page>, since: int): (k: nat)
    requires pages != [] && Ends(pages[|pages| - 1], since)
    ensures k < |pages| && Ends(pages[k], since) && forall i :: 0 <= i < k ==> !Ends(pages[i], since)
    decreases |pages|
  {
    if Ends(pages[0], since) then 0 else 1 + FirstEnd(pages[1..], since)
  }

  lemma {:induction false} SoundPrefix(shelves: seq<Shelf>, n: nat)
    requires n <= |shelves| && Mailbox(shelves) && forall i :: 0 <= i < |shelves| ==> Sound(shelves[i])
    ensures Messages(Pages(shelves)[..n]) == Contents(shelves[..n])
  {
    hide NewestFirst, Messages, Contents;
    if n == 0 {
      NothingRead(Pages(shelves), shelves);
    } else {
      SoundPrefix(shelves, n - 1);
      MessagesStep(Pages(shelves), n - 1);
      ContentsStep(shelves, n - 1);
      assert Sound(shelves[n - 1]);
    }
  }

  lemma SoundPageAccepted(shelves: seq<Shelf>, i: nat)
    requires i < |shelves| && Mailbox(shelves) && forall i :: 0 <= i < |shelves| ==> Sound(shelves[i])
    ensures Accepted(Pages(shelves), i)
  {
    hide Messages, Contents;
    var pages := Pages(shelves);
    SoundPrefix(shelves, i + 1);
    ContentsSplit(shelves, i + 1);
    MessagesStep(pages, i);
    var ms := Messages(pages[..i + 1]);
    assert Contents(shelves[..i + 1]) == Contents(shelves)[..|ms|];
    forall m | m in pages[i].messages ensures Readable(m) {
      assert m in ms && m in Contents(shelves);
      assert Sound(shelves[i]);
    }
    assert i > 0 ==> Sound(shelves[i - 1]);
  }

  // ---- Spelled out ---------------------------------------------------------------------------------------

  /** The window holds what was received in it, its start included and its end not, and keeps the order. */
  lemma WindowExactly(a: seq<Message>, b: seq<Message>, m: Message, since: int, until: int)
    ensures InWindow([], since, until) == []
    ensures m.received.Some? && m.received.value >= since && m.received.value < until ==>
      InWindow([m], since, until) == [m]
    ensures m.received.None? || m.received.value < since || m.received.value >= until ==>
      InWindow([m], since, until) == []
    ensures InWindow(a + b, since, until) == InWindow(a, since, until) + InWindow(b, since, until)
  {
    assert [m][..0] == [];
    InWindowConcat(a, b, since, until);
  }

  /** No message is newer than the one before it, unless that one is of the zero time. */
  predicate Falls(ms: seq<Message>, from: nat) {
    forall t :: from <= t < |ms| && t > 0 && ms[t - 1].received.Some? && ms[t].received.Some? ==>
      ms[t - 1].received.value == 0 || ms[t].received.value <= ms[t - 1].received.value
  }

  /** A page is accepted after accepted ones exactly when none of these is wrong with it. */
  lemma AcceptedExactly(pages: seq<Page>, i: nat)
    requires i < |pages| && Ordered(Messages(pages[..i])) && (i > 0 ==> Accepted(pages, i - 1))
    ensures Accepted(pages, i) <==>
      && |pages[i].url| > 0 && (i == 0 || pages[i - 1].nextURL == pages[i].url) && !pages[i].truncated
      && (forall m :: m in pages[i].messages ==> |m.id| > 0 && m.received.Some?)
      && Falls(Messages(pages[..i]) + pages[i].messages, |Messages(pages[..i])|)
  {
    hide Messages;
    MessagesStep(pages, i);
    var seen, all := Messages(pages[..i]), Messages(pages[..i + 1]);
    assert all == seen + pages[i].messages;
    if Falls(all, |seen|) && Ordered(seen) {
      forall t | 0 < t < |all| && all[t - 1].received.Some? && all[t].received.Some?
                 && all[t - 1].received.value != ZERO_TIME
        ensures all[t].received.value <= all[t - 1].received.value
      {
        if t < |seen| { assert all[t] == seen[t] && all[t - 1] == seen[t - 1]; }
      }
    }
  }

  /** Where reading stops with success: after pages that go on, at one that reaches back too far or is last. */
  lemma StopExactly(pages: seq<Page>, since: int, until: int, k: nat)
    ensures StopsAt(pages, since, until, k) <==>
      && since < until && k < |pages|
      && (forall i :: 0 <= i <= k ==> Accepted(pages, i))
      && (forall i, m :: 0 <= i < k && m in pages[i].messages && m.received.Some? ==> since <= m.received.value)
      && (forall i :: 0 <= i < k ==> pages[i].nextURL != "")
      && ((exists m :: m in pages[k].messages && m.received.Some? && m.received.value < since)
          || (pages[k].nextURL == "" && pages[k].complete))
  {
    hide Accepted;
    if k < |pages| {
      assert Crosses(pages[k], since) <==>
        exists m :: m in pages[k].messages && m.received.Some? && m.received.value < since;
      if Passed(pages, since, k) {
        forall i, m | 0 <= i < k && m in pages[i].messages && m.received.Some? ensures since <= m.received.value {
          assert !Crosses(pages[i], since);
          assert !IsOld(m, since);
        }
      }
    }
  }

  /** The first message of a page that is wrong, after `seen`, and what is wrong with it. */
  predicate FirstWrong(seen: seq<Message>, ms: seq<Message>, t: nat) {
    && t < |ms|
    && (forall s :: 0 <= s < t ==> |ms[s].id| > 0 && ms[s].received.Some?)
    && Falls(seen + ms[..t], |seen|)
    && (|ms[t].id| == 0 || ms[t].received.None? || !Falls(seen + ms[..t + 1], |seen|))
  }

  /** Which error a page gives: of its link, its cut, or the first of its messages that is wrong. */
  lemma ProblemExactly(pages: seq<Page>, i: nat)
    requires i < |pages|
    ensures var page, problem := pages[i], PageProblem(pages, i);
            var linked := |page.url| > 0 && (i == 0 || pages[i - 1].nextURL == page.url);
            && (|page.url| == 0 ==> problem == Some(NoURL(i)))
            && (|page.url| > 0 && !linked ==> problem == Some(Jumped(i)))
            && (linked && page.truncated ==> problem == Some(Error.Truncated(i)))
            && (linked && !page.truncated ==>
                  problem == MessageProblem(Messages(pages[..i]), page.messages, i))
  {
    hide Messages, MessageProblem;
  }

  lemma {:induction false} MessageProblemExactly(seen: seq<Message>, ms: seq<Message>, number: nat, t: nat)
    requires seen != [] ==> seen[|seen| - 1].received.Some?
    ensures FirstWrong(seen, ms, t) ==>
      MessageProblem(seen, ms, number)
      == Some(if |ms[t].id| == 0 then NoId else if ms[t].received.None? then BadTimestamp else Unsorted(number))
    ensures (forall m :: m in ms ==> |m.id| > 0 && m.received.Some?) && Falls(seen + ms, |seen|) ==>
      MessageProblem(seen, ms, number).None?
    decreases |ms|
  {
    hide FirstWrong, Falls;
    if ms != [] {
      var m, rest := ms[0], ms[1..];
      MessageProblemStep(seen, ms, number);
      OneMessage(seen, ms);
      if m.received.Some? { MessageProblemExactly(seen + [m], rest, number, if t > 0 then t - 1 else 0); }
      WrongLater(seen, ms, t);
      assert seen + ms == seen + [m] + rest;
    } else {
      NothingWrong(seen, t);
    }
  }

  lemma NothingWrong(seen: seq<Message>, t: nat)
    ensures !FirstWrong(seen, [], t)
  {
  }

  /** The first message of a list against the last one seen. */
  lemma OneMessage(seen: seq<Message>, ms: seq<Message>)
    requires ms != [] && (seen != [] ==> seen[|seen| - 1].received.Some?)
    ensures ms[0] in ms
    ensures ms[0].received.Some? ==>
      (Falls(seen + [ms[0]], |seen|) <==> Previous(seen) == ZERO_TIME || ms[0].received.value <= Previous(seen))
    ensures Falls(seen + ms, |seen|) ==> Falls(seen + [ms[0]], |seen|) && Falls(seen + [ms[0]] + ms[1..], |seen| + 1)
  {
    var one, all := seen + [ms[0]], seen + ms;
    assert one[|seen|] == ms[0] == all[|seen|] && all == seen + [ms[0]] + ms[1..];
    assert seen != [] ==> one[|seen| - 1] == seen[|seen| - 1] == all[|seen| - 1];
  }

  lemma WrongLater(seen: seq<Message>, ms: seq<Message>, t: nat)
    requires ms != []
    ensures FirstWrong(seen, ms, t) && t > 0 ==>
      && FirstWrong(seen + [ms[0]], ms[1..], t - 1) && |ms[0].id| > 0 && ms[0].received.Some?
      && Falls(seen + [ms[0]], |seen|)
    ensures FirstWrong(seen, ms, 0) ==>
      |ms[0].id| == 0 || ms[0].received.None? || !Falls(seen + [ms[0]], |seen|)
  {
    if FirstWrong(seen, ms, t) {
      var m, rest := ms[0], ms[1..];
      assert ms[..1] == [m];
      if t > 0 {
        assert seen + ms[..t] == seen + [m] + rest[..t - 1] && seen + ms[..t + 1] == seen + [m] + rest[..t];
        var one, most := seen + [m], seen + ms[..t];
        assert forall k :: 0 <= k < |one| ==> one[k] == most[k];
        assert rest[t - 1] == ms[t];
        forall s | 0 <= s < t - 1 ensures |rest[s].id| > 0 && rest[s].received.Some? {
          assert rest[s] == ms[s + 1];
        }
      }
    }
    if FirstWrong(seen, ms, 0) { assert ms[..1] == [ms[0]]; }
  }
}
