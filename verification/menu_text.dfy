/** Steps "format menu data" and "create prompt" of the chat pipeline: the
    `menuText` string built from the listed categories, and the prompt that
    embeds it together with the customer's message. */
module MenuText {
  import opened Catalog
  import opened Grouping
  import opened Strings

  const Title := "Restaurant Menu:"

  /** The line listing one item, without its line break. */
  function ItemLine(item: Item): string {
    "- " + item.name + ": $" + item.price
  }

  function ItemLines(items: seq<Item>): (lines: seq<string>)
    ensures |lines| == |items|
    ensures forall k :: 0 <= k < |items| ==> lines[k] == ItemLine(items[k])
  {
    seq(|items|, k requires 0 <= k < |items| => ItemLine(items[k]))
  }

  /** The lines of one category: its heading, its items, a blank line. */
  function GroupLines(g: Group): seq<string> {
    [g.category + ":"] + ItemLines(g.items) + [""]
  }

  /** The menu as a list of lines: the title, a blank line, then each
      category's lines in listing order. */
  function MenuLines(entries: seq<Group>): (lines: seq<string>)
    ensures |lines| >= 2 && lines[..2] == [Title, ""]
  {
    if |entries| == 0 then [Title, ""]
    else MenuLines(entries[..|entries| - 1]) + GroupLines(entries[|entries| - 1])
  }

  /** Lines written one after another, each followed by a line break. */
  function Terminated(lines: seq<string>): string {
    if |lines| == 0 then ""
    else Terminated(lines[..|lines| - 1]) + lines[|lines| - 1] + "\n"
  }

  /** One pass of the `for ... of Object.entries(categories)` loop: the
      heading, the inner `forEach` over the items, the closing blank line. */
  method RenderGroup(g: Group) returns (block: string)
    ensures block == Terminated(GroupLines(g))
  {
    var heading := g.category + ":";
    block := heading + "\n";
    assert block == Terminated([heading]) by {
      assert [heading][..0] == [];
    }
    assert g.items[..0] == [] && [heading] + ItemLines([]) == [heading];
    var j := 0;
    while j < |g.items|
      invariant 0 <= j <= |g.items|
      invariant block == Terminated([heading] + ItemLines(g.items[..j]))
    {
      var item := g.items[j];
      assert g.items[..j + 1] == g.items[..j] + [item];
      assert [heading] + ItemLines(g.items[..j + 1]) == [heading] + ItemLines(g.items[..j]) + [ItemLine(item)];
      TerminatedSnoc([heading] + ItemLines(g.items[..j]), ItemLine(item));
      block := block + ("- " + item.name + ": $" + item.price + "\n");
      j := j + 1;
    }
    assert g.items[..j] == g.items;
    TerminatedSnoc([heading] + ItemLines(g.items), "");
    block := block + "\n";
  }

  /** The whole formatting loop, appending to `menuText` category by
      category. The result is the menu's lines, each ended by a line break,
      so splitting it on line breaks gives the lines back. */
  method RenderMenu(entries: seq<Group>) returns (menuText: string)
    ensures menuText == Terminated(MenuLines(entries))
    ensures NoLineBreaks(entries) ==> Split(menuText, '\n') == MenuLines(entries) + [""]
  {
    menuText := "Restaurant Menu:\n\n";
    assert menuText == Terminated([Title, ""]) by {
      TerminatedSnoc([], Title);
      TerminatedSnoc([Title], "");
      assert [] + [Title] == [Title] && [Title] + [""] == [Title, ""];
    }
    var i := 0;
    while i < |entries|
      invariant 0 <= i <= |entries|
      invariant menuText == Terminated(MenuLines(entries[..i]))
    {
      var block := RenderGroup(entries[i]);
      TerminatedAppend(MenuLines(entries[..i]), GroupLines(entries[i]));
      menuText := menuText + block;
      assert entries[..i + 1][..i] == entries[..i];
      i := i + 1;
    }
    assert entries[..i] == entries;
    if NoLineBreaks(entries) {
      MenuLinesWithoutBreaks(entries);
      SplitTerminated(MenuLines(entries));
    }
  }

  lemma {:induction false} TerminatedSnoc(lines: seq<string>, l: string)
    ensures Terminated(lines + [l]) == Terminated(lines) + l + "\n"
  {
    assert (lines + [l])[..|lines|] == lines;
  }

  lemma {:induction false} TerminatedAppend(a: seq<string>, b: seq<string>)
    ensures Terminated(a + b) == Terminated(a) + Terminated(b)
  {
    if |b| == 0 {
      assert a + b == a;
    } else {
      var last := b[|b| - 1];
      assert a + b == (a + b[..|b| - 1]) + [last];
      TerminatedAppend(a, b[..|b| - 1]);
      TerminatedSnoc(a + b[..|b| - 1], last);
    }
  }

  /** Splitting terminated lines on the line break gives the lines back,
      plus the empty piece after the last break. */
  lemma {:induction false} SplitTerminated(lines: seq<string>)
    requires forall k :: 0 <= k < |lines| ==> '\n' !in lines[k]
    ensures Split(Terminated(lines), '\n') == lines + [""]
  {
    if |lines| > 0 {
      var rest := lines[1..];
      assert lines == [lines[0]] + rest;
      TerminatedAppend([lines[0]], rest);
      assert Terminated([lines[0]]) == lines[0] + "\n" by {
        assert [lines[0]][..0] == [];
      }
      SplitTerminated(rest);
      assert Terminated(lines) == lines[0] + ['\n'] + Terminated(rest);
      SplitAfterPiece(lines[0], Terminated(rest), '\n');
    }
  }

  /** No category, name or price contains a line break. */
  predicate NoLineBreaks(entries: seq<Group>) {
    forall k :: 0 <= k < |entries| ==>
      && '\n' !in entries[k].category
      && forall m :: 0 <= m < |entries[k].items| ==>
           '\n' !in entries[k].items[m].name && '\n' !in entries[k].items[m].price
  }

  lemma {:induction false} MenuLinesWithoutBreaks(entries: seq<Group>)
    requires NoLineBreaks(entries)
    ensures forall k :: 0 <= k < |MenuLines(entries)| ==> '\n' !in MenuLines(entries)[k]
  {
    if |entries| > 0 {
      var init := entries[..|entries| - 1];
      MenuLinesWithoutBreaks(init);
      var g := entries[|entries| - 1];
      var gl := GroupLines(g);
      forall k | 0 <= k < |gl| ensures '\n' !in gl[k] {
        if 0 < k < |gl| - 1 {
          assert gl[k] == ItemLine(g.items[k - 1]);
        }
      }
    }
  }

  const PromptHead := "You are a helpful restaurant assistant. Here is our current menu:\n\n"
  const PromptMiddle := "\n\nCustomer: \""
  const PromptTail := "\"\n\nPlease answer the customer's question. If it's about menu items, prices, or recommendations, use the menu data above. For other questions, feel free to provide helpful responses.\n\nYour answer:"

  /** The message read back out of a prompt, given the length of the menu
      text that precedes it. */
  function PromptMessage(p: string, menuLength: nat): string
    requires |PromptHead| + menuLength + |PromptMiddle| + |PromptTail| <= |p|
  {
    p[|PromptHead| + menuLength + |PromptMiddle|..|p| - |PromptTail|]
  }

  /** The prompt sent to the model: fixed instructions around the menu text
      and the customer's message, both inserted verbatim (no escaping), so
      the message can be read back whatever quotes or line breaks it holds. */
  function Prompt(menuText: string, message: string): (p: string)
    ensures |p| == |PromptHead| + |menuText| + |PromptMiddle| + |message| + |PromptTail|
    ensures PromptHead <= p
    ensures p[|PromptHead|..|PromptHead| + |menuText|] == menuText
    ensures p[|PromptHead| + |menuText|..|PromptHead| + |menuText| + |PromptMiddle|] == PromptMiddle
    ensures PromptMessage(p, |menuText|) == message
    ensures p[|p| - |PromptTail|..] == PromptTail
  {
    PromptHead + menuText + PromptMiddle + message + PromptTail
  }
}
