/** The sending half of the reminder batch job (`main` in send_reminders.py):
    one message per owner that has a user account, whose body lists that
    owner's reminder items in a fixed text layout.

    Delivery itself is not modelled: the result is the sequence of messages
    the job would hand to the mailer, in sending order. */
module ReminderMail {
  import opened Reminders
  import DecimalText

  const Subject := "ConComply service reminders"
  const Heading := "Upcoming service reminders:"

  /** A message handed to the mailer. */
  datatype Email = Email(to: string, subject: string, body: string)

  // ---------------------------------------------------------------------
  // Lines and their separator

  /** `"\n".join(lines)`. Splitting the result at newlines gives the lines
      back, provided there is at least one and none contains a newline. */
  function Join(lines: seq<string>): (text: string)
    ensures |lines| > 0 && SingleLines(lines) ==> Split(text) == lines
    decreases |lines|
  {
    if |lines| == 0 then ""
    else if |lines| == 1 then
      (if NoNewline(lines[0]) then SplitSingleLine(lines[0]); lines[0] else lines[0])
    else
      var rest := Join(lines[1..]);
      assert [lines[0]] + lines[1..] == lines;
      if NoNewline(lines[0]) then SplitAfterLine(lines[0], rest); lines[0] + "\n" + rest
      else lines[0] + "\n" + rest
  }

  /** No line contains a newline. */
  predicate SingleLines(lines: seq<string>) {
    forall j :: 0 <= j < |lines| ==> NoNewline(lines[j])
  }

  /** `text.split("\n")`: the pieces between newlines. */
  function Split(text: string): (lines: seq<string>)
    ensures |lines| > 0
    decreases |text|
  {
    if |text| == 0 then [""]
    else
      var rest := Split(text[1..]);
      if text[0] == '\n' then [""] + rest
      else [[text[0]] + rest[0]] + rest[1..]
  }

  predicate NoNewline(line: string) {
    forall i :: 0 <= i < |line| ==> line[i] != '\n'
  }

  lemma {:induction false} SplitSingleLine(line: string)
    requires NoNewline(line)
    ensures Split(line) == [line]
    decreases |line|
  {
    if |line| > 0 {
      SplitSingleLine(line[1..]);
      assert [line[0]] + line[1..] == line;
    }
  }

  lemma {:induction false} SplitAfterLine(line: string, text: string)
    requires NoNewline(line)
    ensures Split(line + "\n" + text) == [line] + Split(text)
    decreases |line|
  {
    if |line| == 0 {
      assert line + "\n" + text == "\n" + text;
      assert ("\n" + text)[1..] == text;
    } else {
      SplitAfterLine(line[1..], text);
      assert (line + "\n" + text)[1..] == line[1..] + "\n" + text;
      assert [line[0]] + line[1..] == line;
    }
  }

  // ---------------------------------------------------------------------
  // One reminder line

  /** The mileage column: the number, or `N/A` when the mileage is unknown. */
  function MileageText(mileage: Option<int>): (text: string)
    ensures text == "N/A" <==> mileage.None?
    ensures mileage.Some? ==> text == DecimalText.IntText(mileage.value)
    ensures NoNewline(text)
  {
    match mileage
    case None => "N/A"
    case Some(m) => DecimalText.IntText(m)
  }

  /** `- {code} ({type}) | Next service: {date} | Mileage: {mileage}`, with
      `dateText` giving the printed form of a day number. */
  function ItemLine(item: Item, dateText: int -> string): (line: string)
    ensures PrintableItem(item, dateText) ==> NoNewline(line)
  {
    "- " + item.code + " (" + item.kind + ") | Next service: " + dateText(item.nextService)
      + " | Mileage: " + MileageText(item.mileage)
  }

  function ItemLines(items: seq<Item>, dateText: int -> string): (lines: seq<string>) {
    seq(|items|, j requires 0 <= j < |items| => ItemLine(items[j], dateText))
  }

  /** The lines of one owner's message: the heading, an empty line, then one
      line per item in list order. */
  function BodyLines(items: seq<Item>, dateText: int -> string): seq<string> {
    [Heading, ""] + ItemLines(items, dateText)
  }

  /** The loop of `main` that assembles one owner's message body. */
  method ComposeBody(items: seq<Item>, dateText: int -> string) returns (body: string)
    ensures body == Join(BodyLines(items, dateText))
  {
    var lines := [Heading, ""];
    for j := 0 to |items|
      invariant lines == BodyLines(items[..j], dateText)
    {
      BodyLinesStep(items, j, dateText);
      lines := lines + [ItemLine(items[j], dateText)];
    }
    assert items[..|items|] == items;
    body := Join(lines);
  }

  lemma ItemLinesAppend(items: seq<Item>, item: Item, dateText: int -> string)
    ensures ItemLines(items + [item], dateText) == ItemLines(items, dateText) + [ItemLine(item, dateText)]
  {
    var a := ItemLines(items + [item], dateText);
    var b := ItemLines(items, dateText) + [ItemLine(item, dateText)];
    assert |a| == |b|;
    forall j | 0 <= j < |a|
      ensures a[j] == b[j]
    {
      assert (items + [item])[j] == if j < |items| then items[j] else item;
    }
  }

  lemma BodyLinesStep(items: seq<Item>, j: nat, dateText: int -> string)
    requires j < |items|
    ensures BodyLines(items[..j + 1], dateText) == BodyLines(items[..j], dateText) + [ItemLine(items[j], dateText)]
  {
    assert items[..j + 1] == items[..j] + [items[j]];
    ItemLinesAppend(items[..j], items[j], dateText);
  }

  /** A line has no newline when its code, type and printed date have none. */
  predicate PrintableItem(item: Item, dateText: int -> string) {
    NoNewline(item.code) && NoNewline(item.kind) && NoNewline(dateText(item.nextService))
  }

  /** Every line of a body is free of newlines when its items are. */
  lemma BodyLinesNoNewline(items: seq<Item>, dateText: int -> string)
    requires forall j :: 0 <= j < |items| ==> PrintableItem(items[j], dateText)
    ensures SingleLines(BodyLines(items, dateText))
  {
    var itemLines := ItemLines(items, dateText);
    forall j | 0 <= j < |itemLines|
      ensures NoNewline(itemLines[j])
    {
      assert PrintableItem(items[j], dateText);
    }
    assert NoNewline(Heading);
    var lines := BodyLines(items, dateText);
    forall j | 0 <= j < |lines|
      ensures NoNewline(lines[j])
    {
      if j >= 2 {
        assert lines[j] == itemLines[j - 2];
      }
    }
  }

  /** Reading a message body back line by line: the heading, an empty line,
      and the line of the `j`-th item at position `j + 2`, as many lines as
      items plus two. */
  lemma BodyReadsBack(items: seq<Item>, dateText: int -> string)
    requires forall j :: 0 <= j < |items| ==> PrintableItem(items[j], dateText)
    ensures var lines := Split(Join(BodyLines(items, dateText)));
      |lines| == |items| + 2 && lines[0] == Heading && lines[1] == "" &&
      forall j :: 0 <= j < |items| ==> lines[j + 2] == ItemLine(items[j], dateText)
  {
    var lines := BodyLines(items, dateText);
    var itemLines := ItemLines(items, dateText);
    BodyLinesNoNewline(items, dateText);
    assert Split(Join(lines)) == lines;
    assert lines == [Heading, ""] + itemLines;
    forall j | 0 <= j < |items|
      ensures lines[j + 2] == ItemLine(items[j], dateText)
    {
      assert lines[j + 2] == itemLines[j];
    }
  }

  // ---------------------------------------------------------------------
  // One message per known owner

  /** The owners that have a user account. When the owners are distinct, so
      are these, and they keep the owners' relative order. */
  function KnownOwners(owners: seq<int>, users: map<int, string>): (known: seq<int>)
    ensures forall k :: k in known <==> k in owners && k in users
    ensures Distinct(owners) ==> Distinct(known) && KeepsOrder(known, owners)
    decreases |owners|
  {
    if |owners| == 0 then []
    else
      var n := |owners| - 1;
      assert forall k :: k in owners <==> k in owners[..n] || k == owners[n];
      var known := KnownOwners(owners[..n], users);
      if owners[n] in users then
        KeepsOrderAppend(known, owners);
        known + [owners[n]]
      else
        KeepsOrderPrefix(known, owners);
        known
  }

  /** No value occurs twice. */
  predicate Distinct(s: seq<int>) {
    forall j, j' :: 0 <= j < j' < |s| ==> s[j] != s[j']
  }

  /** Every value of `sub` occurs in `s`, and earlier in `sub` means earlier
      in `s`. */
  predicate KeepsOrder(sub: seq<int>, s: seq<int>) {
    (forall k :: k in sub ==> k in s) &&
    forall j, j', a, b ::
      0 <= j < j' < |sub| && 0 <= a < |s| && 0 <= b < |s| && sub[j] == s[a] && sub[j'] == s[b]
      ==> a < b
  }

  /** Taking the last owner along keeps the order. */
  lemma KeepsOrderAppend(known: seq<int>, owners: seq<int>)
    requires |owners| > 0
    ensures var n := |owners| - 1;
      Distinct(owners) && Distinct(known) && KeepsOrder(known, owners[..n]) ==>
      Distinct(known + [owners[n]]) && KeepsOrder(known + [owners[n]], owners)
  {
    var n := |owners| - 1;
    if Distinct(owners) && Distinct(known) && KeepsOrder(known, owners[..n]) {
      var known' := known + [owners[n]];
      forall k | k in known
        ensures k in owners[..n]
      {
      }
      forall j | 0 <= j < |known|
        ensures known[j] != owners[n]
      {
        assert known[j] in owners[..n];
      }
      forall j, j', a, b |
        0 <= j < j' < |known'| && 0 <= a < |owners| && 0 <= b < |owners| &&
        known'[j] == owners[a] && known'[j'] == owners[b]
        ensures a < b
      {
        assert known'[j] == known[j] && known[j] in owners[..n];
        var a' :| 0 <= a' < n && owners[..n][a'] == known[j];
        assert a == a';
        if j' < |known| {
          assert known'[j'] == known[j'] && known[j'] in owners[..n];
          var b' :| 0 <= b' < n && owners[..n][b'] == known[j'];
          assert b == b';
        } else {
          assert b == n;
        }
      }
    }
  }

  /** Passing over the last owner keeps the order. */
  lemma KeepsOrderPrefix(known: seq<int>, owners: seq<int>)
    requires |owners| > 0
    ensures var n := |owners| - 1;
      Distinct(owners) && KeepsOrder(known, owners[..n]) ==> KeepsOrder(known, owners)
  {
    var n := |owners| - 1;
    if Distinct(owners) && KeepsOrder(known, owners[..n]) {
      forall j, j', a, b |
        0 <= j < j' < |known| && 0 <= a < |owners| && 0 <= b < |owners| &&
        known[j] == owners[a] && known[j'] == owners[b]
        ensures a < b
      {
        assert known[j] in owners[..n];
        var a' :| 0 <= a' < n && owners[..n][a'] == known[j];
        assert a == a';
        assert known[j'] in owners[..n];
        var b' :| 0 <= b' < n && owners[..n][b'] == known[j'];
        assert b == b';
      }
    }
  }

  /** The message `owner` receives: to the owner's address, under the fixed
      subject, with a body that reads back as the owner's body lines. */
  function MessageFor(d: ReminderMap, users: map<int, string>, dateText: int -> string, owner: int): (message: Email)
    requires owner in d.items && owner in users
    ensures message.to == users[owner] && message.subject == Subject
    ensures (forall j :: 0 <= j < |d.items[owner]| ==> PrintableItem(d.items[owner][j], dateText)) ==>
      Split(message.body) == BodyLines(d.items[owner], dateText)
  {
    var items := d.items[owner];
    if forall j :: 0 <= j < |items| ==> PrintableItem(items[j], dateText) then
      BodyLinesNoNewline(items, dateText);
      Email(users[owner], Subject, Join(BodyLines(items, dateText)))
    else
      Email(users[owner], Subject, Join(BodyLines(items, dateText)))
  }

  /** The messages for the owners `known`, in that order. */
  function Messages(d: ReminderMap, users: map<int, string>, dateText: int -> string, known: seq<int>): seq<Email>
    requires forall k :: k in known ==> k in d.items && k in users
  {
    seq(|known|, j requires 0 <= j < |known| => MessageFor(d, users, dateText, known[j]))
  }

  lemma MessagesAppend(d: ReminderMap, users: map<int, string>, dateText: int -> string, known: seq<int>, owner: int)
    requires forall k :: k in known ==> k in d.items && k in users
    requires owner in d.items && owner in users
    ensures Messages(d, users, dateText, known + [owner]) ==
      Messages(d, users, dateText, known) + [MessageFor(d, users, dateText, owner)]
  {
    var a := Messages(d, users, dateText, known + [owner]);
    var b := Messages(d, users, dateText, known) + [MessageFor(d, users, dateText, owner)];
    assert |a| == |b|;
    forall j | 0 <= j < |a|
      ensures a[j] == b[j]
    {
      assert (known + [owner])[j] == if j < |known| then known[j] else owner;
    }
  }

  /** The messages the job sends for the dictionary `d`, in its order. */
  function Outbox(d: ReminderMap, users: map<int, string>, dateText: int -> string): seq<Email>
    requires WellFormed(d)
  {
    Messages(d, users, dateText, KnownOwners(d.owners, users))
  }

  /** The sending loop of `main`. An empty dictionary sends nothing, and an
      owner without a user account is passed over. */
  method SendReminders(d: ReminderMap, users: map<int, string>, dateText: int -> string)
    returns (outbox: seq<Email>)
    requires WellFormed(d)
    ensures outbox == Outbox(d, users, dateText)
  {
    outbox := [];
    if |d.owners| == 0 {
      return;
    }
    for i := 0 to |d.owners|
      invariant forall k :: k in KnownOwners(d.owners[..i], users) ==> k in d.items
      invariant outbox == Messages(d, users, dateText, KnownOwners(d.owners[..i], users))
    {
      var owner := d.owners[i];
      ghost var known := KnownOwners(d.owners[..i], users);
      assert d.owners[..i + 1][..i] == d.owners[..i];
      if owner !in users {
        assert KnownOwners(d.owners[..i + 1], users) == known;
        continue;
      }
      assert KnownOwners(d.owners[..i + 1], users) == known + [owner];
      MessagesAppend(d, users, dateText, known, owner);
      var body := ComposeBody(d.items[owner], dateText);
      outbox := outbox + [Email(users[owner], Subject, body)];
    }
    assert d.owners[..|d.owners|] == d.owners;
  }

  /** An owner without a user account is skipped without affecting anyone
      else: the owners that get a message are the same as when that owner is
      removed from the dictionary's owners. */
  lemma {:induction false} UnknownOwnerSkipped(owners: seq<int>, users: map<int, string>, owner: int)
    requires owner !in users
    ensures KnownOwners(owners, users) == KnownOwners(Without(owners, owner), users)
    decreases |owners|
  {
    if |owners| > 0 {
      var n := |owners| - 1;
      UnknownOwnerSkipped(owners[..n], users, owner);
      if owners[n] != owner {
        assert Without(owners, owner)[..|Without(owners, owner)| - 1] == Without(owners[..n], owner);
      } else {
        assert Without(owners, owner) == Without(owners[..n], owner);
      }
    }
  }

  /** `owners` with every occurrence of `owner` removed. */
  function Without(owners: seq<int>, owner: int): (rest: seq<int>)
    ensures forall k :: k in rest <==> k in owners && k != owner
    decreases |owners|
  {
    if |owners| == 0 then []
    else
      var n := |owners| - 1;
      assert forall k :: k in owners <==> k in owners[..n] || k == owners[n];
      var rest := Without(owners[..n], owner);
      if owners[n] == owner then rest else rest + [owners[n]]
  }

  // ---------------------------------------------------------------------
  // The whole job

  /** `main`: build the reminder dictionary, then send one message per known
      owner. `None` stands for the OverflowError of the cutoff computation. */
  method RunReminderJob(equipment: seq<Equipment>, services: seq<Service>, today: int, days: Option<int>,
                        users: map<int, string>, dateText: int -> string)
    returns (outbox: Option<seq<Email>>, ghost chosen: seq<Option<Service>>)
    requires IsOrdinal(today)
    ensures outbox.None? <==> Cutoff(today, days).None?
    ensures outbox.Some? ==> |chosen| == |equipment|
    ensures outbox.Some? ==>
      forall i :: 0 <= i < |equipment| ==> IsLatestChoice(services, equipment[i].id, chosen[i])
    ensures outbox.Some? ==>
      var d := Collect(equipment, chosen, Cutoff(today, days).value);
      WellFormed(d) && outbox.value == Outbox(d, users, dateText)
  {
    var reminders;
    reminders, chosen := BuildReminders(equipment, services, today, days);
    if reminders.None? {
      return None, chosen;
    }
    CollectGroupsByOwner(equipment, chosen, Cutoff(today, days).value);
    var sent := SendReminders(reminders.value, users, dateText);
    outbox := Some(sent);
  }
}
