/**
 * MarkdownCreator: a document built by appending blocks to one `text` buffer. Every builder
 * appends exactly its block; `render` hands the buffer back. (The builders return the object
 * for chaining; the model's methods return nothing and are called one after another.)
 */
module Markdown {
  import opened Php

  // ---------------------------------------------------------------------------
  // The blocks
  // ---------------------------------------------------------------------------

  /** Each line followed by a newline. */
  function Lines(ls: seq<string>): string
    decreases |ls|
  {
    if ls == [] then "" else ls[0] + "\n" + Lines(ls[1..])
  }

  lemma {:induction false} LinesSnoc(ls: seq<string>, l: string)
    ensures Lines(ls + [l]) == Lines(ls) + l + "\n"
    decreases |ls|
  {
    if ls == [] {
      assert ([] + [l])[1..] == [];
    } else {
      var rest := ls[1..];
      assert (ls + [l])[0] == ls[0];
      assert (ls + [l])[1..] == rest + [l];
      LinesSnoc(rest, l);
      calc {
        Lines(ls + [l]);
        ls[0] + "\n" + Lines(rest + [l]);
        ls[0] + "\n" + (Lines(rest) + l + "\n");
        (ls[0] + "\n" + Lines(rest)) + l + "\n";
      }
    }
  }

  /** The lines, then the text `x` with no newline after it: implode("\n") of the lines and `x`. */
  lemma {:induction false} LinesJoin(ls: seq<string>, x: string)
    ensures Lines(ls) + x == Join(ls + [x], "\n")
    decreases |ls|
  {
    if ls == [] {
      assert [] + [x] == [x];
    } else {
      LinesJoin(ls[1..], x);
      assert (ls + [x])[1..] == ls[1..] + [x];
    }
  }

  /** A table row: `'|' . implode('|', $cells) . '|'`. */
  function Row(cells: seq<string>): string
  {
    "|" + Join(cells, "|") + "|"
  }

  /** array_fill(0, $n, ':----'): the alignment cells under a header of `n` columns. */
  function Separator(n: nat): (cells: seq<string>)
    ensures |cells| == n && forall i :: 0 <= i < n ==> cells[i] == ":----"
  {
    seq(n, i => ":----")
  }

  /** The row of each item, in order. */
  function Rows(items: seq<seq<string>>): (rows: seq<string>)
    ensures |rows| == |items| && forall i :: 0 <= i < |items| ==> rows[i] == Row(items[i])
  {
    seq(|items|, i requires 0 <= i < |items| => Row(items[i]))
  }

  /** table(): the header row, the alignment row, one row per item, and a blank line. */
  function TableBlock(header: seq<string>, items: seq<seq<string>>): string
  {
    Lines([Row(header), Row(Separator(|header|))] + Rows(items)) + "\n"
  }

  /** The item lines of div(): each item prefixed with ` - `, but only when there are several. */
  function Bulleted(items: seq<string>): (ls: seq<string>)
    ensures |ls| == |items|
    ensures |items| > 1 ==> forall i :: 0 <= i < |items| ==> ls[i] == " - " + items[i]
    ensures |items| <= 1 ==> ls == items
  {
    if |items| > 1 then seq(|items|, i requires 0 <= i < |items| => " - " + items[i]) else items
  }

  /** One more item adds its line, with the ` - ` prefix when there are several items. */
  lemma BulletStep(items: seq<string>, i: nat)
    requires i < |items|
    ensures Lines(Bulleted(items)[..i + 1]) ==
      Lines(Bulleted(items)[..i]) + (if |items| > 1 then " - " else "") + items[i] + "\n"
  {
    var line := Bulleted(items)[i];
    assert line == (if |items| > 1 then " - " else "") + items[i];
    assert Bulleted(items)[..i + 1] == Bulleted(items)[..i] + [line];
    LinesSnoc(Bulleted(items)[..i], line);
  }

  /** div(): the bold title, a blank line, the item lines, and a blank line. */
  function DivBlock(title: string, items: seq<string>): string
  {
    "**" + title + "**\n\n" + Lines(Bulleted(items)) + "\n"
  }

  // ---------------------------------------------------------------------------
  // The builder
  // ---------------------------------------------------------------------------

  class Creator {
    var text: string

    constructor()
      ensures text == ""
    {
      text := "";
    }

    /** title(): a level-one heading and a blank line. */
    method Title(title: string)
      modifies this
      ensures text == old(text) + "#" + title + "\n\n"
    {
      text := text + "#" + title + "\n\n";
    }

    /** table(): the block is built in a local string, then appended. */
    method Table(header: seq<string>, items: seq<seq<string>>)
      modifies this
      ensures text == old(text) + TableBlock(header, items)
    {
      var t := Row(header) + "\n";
      var second := Separator(|header|);
      t := t + Row(second) + "\n";
      ghost var head := [Row(header), Row(second)];
      assert t == Lines(head) by {
        assert head[1..] == [Row(second)];
        assert head[1..][1..] == [];
        assert Lines(head[1..]) == Row(second) + "\n";
      }
      assert head + Rows(items)[..0] == head;
      for i := 0 to |items|
        invariant t == Lines(head + Rows(items)[..i])
        invariant text == old(text)
      {
        assert head + Rows(items)[..i + 1] == (head + Rows(items)[..i]) + [Row(items[i])];
        LinesSnoc(head + Rows(items)[..i], Row(items[i]));
        t := t + Row(items[i]) + "\n";
      }
      assert Rows(items)[..|items|] == Rows(items);
      assert t + "\n" == TableBlock(header, items);
      text := text + (t + "\n");
    }

    /** div(): the block is built in a local string, then appended. */
    method Div(title: string, items: seq<string>)
      modifies this
      ensures text == old(text) + DivBlock(title, items)
    {
      var t := "**" + title + "**\n\n";
      ghost var head := t;
      for i := 0 to |items|
        invariant t == head + Lines(Bulleted(items)[..i])
        invariant text == old(text)
      {
        BulletStep(items, i);
        if |items| > 1 {
          t := t + " - ";
        }
        t := t + items[i] + "\n";
      }
      assert Bulleted(items)[..|items|] == Bulleted(items);
      text := text + (t + "\n");
    }

    /** line(): a bold title and an italic note. */
    method Line(title: string, small: string)
      modifies this
      ensures text == old(text) + "**" + title + "** _" + small + "_\n\n"
    {
      text := text + "**" + title + "** _" + small + "_\n\n";
    }

    /** p(): a bold title, a blank line, the content and a blank line. */
    method P(title: string, content: string)
      modifies this
      ensures text == old(text) + "**" + title + "**\n\n" + content + "\n\n"
    {
      var t := "**" + title + "**\n\n";
      t := t + content + "\n\n";
      text := text + t;
    }

    /** text(): the content on a line of its own. */
    method Text(content: string)
      modifies this
      ensures text == old(text) + content + "\n"
    {
      text := text + content + "\n";
    }

    /** render(): the document so far; the buffer is unchanged. */
    method Render() returns (r: string)
      ensures r == text
    {
      r := text;
    }
  }

  // ---------------------------------------------------------------------------
  // What the blocks hold
  // ---------------------------------------------------------------------------

  /** A row read back on `|` gives its cells, between an empty piece at each end. */
  lemma RowCells(cells: seq<string>)
    requires cells != [] && forall i :: 0 <= i < |cells| ==> '|' !in cells[i]
    ensures Split(Row(cells), '|') == [""] + cells + [""]
  {
    var all := [""] + cells + [""];
    assert Join(cells + [""], "|") == Join(cells, "|") + "|" + "" by {
      JoinAppend(cells, [""], "|");
    }
    assert Join(all, "|") == "" + "|" + Join(cells + [""], "|") by {
      assert all == [""] + (cells + [""]);
      JoinAppend([""], cells + [""], "|");
    }
    assert Row(cells) == Join(all, "|");
    forall i | 0 <= i < |all| ensures '|' !in all[i] {
      if 0 < i < |all| - 1 {
        assert all[i] == cells[i - 1];
      }
    }
    SplitJoin(all, '|');
  }

  /** The alignment row has exactly one `:----` cell per header column. */
  lemma SeparatorCells(n: nat)
    requires n >= 1
    ensures Split(Row(Separator(n)), '|') == [""] + Separator(n) + [""]
  {
    RowCells(Separator(n));
  }

  /** A row of cells without newlines is a single line. */
  lemma RowOneLine(cells: seq<string>)
    requires forall i :: 0 <= i < |cells| ==> '\n' !in cells[i]
    ensures '\n' !in Row(cells)
  {
    JoinNoChar(cells, "|", '\n');
  }

  /**
   * Read back line by line, a table is its header row, its alignment row and one row per
   * item, in order, then the two empty pieces of the blank line that closes it.
   */
  lemma TableLines(header: seq<string>, items: seq<seq<string>>)
    requires forall i :: 0 <= i < |header| ==> '\n' !in header[i]
    requires forall k, i :: 0 <= k < |items| && 0 <= i < |items[k]| ==> '\n' !in items[k][i]
    ensures Split(TableBlock(header, items), '\n') ==
      [Row(header), Row(Separator(|header|))] + Rows(items) + ["", ""]
  {
    var ls := [Row(header), Row(Separator(|header|))] + Rows(items);
    LinesSnoc(ls, "");
    LinesJoin(ls + [""], "");
    var all := ls + ["", ""];
    assert ls + [""] + [""] == all;
    assert Lines(ls) + "\n" == Join(all, "\n") by {
      assert Lines(ls + [""]) == Lines(ls) + "\n";
      assert Lines(ls + [""]) + "" == Lines(ls + [""]);
    }
    RowOneLine(header);
    RowOneLine(Separator(|header|));
    forall i | 0 <= i < |all| ensures '\n' !in all[i] {
      if 2 <= i < |ls| {
        assert all[i] == Row(items[i - 2]);
        RowOneLine(items[i - 2]);
      }
    }
    SplitJoin(all, '\n');
  }

  /**
   * Read back line by line, a div is its bold title, a blank line, one line per item (with the
   * bullet only when there are several), then the two empty pieces of the closing blank line.
   */
  lemma DivLines(title: string, items: seq<string>)
    requires '\n' !in title && forall i :: 0 <= i < |items| ==> '\n' !in items[i]
    ensures Split(DivBlock(title, items), '\n') == ["**" + title + "**", ""] + Bulleted(items) + ["", ""]
  {
    var ls := ["**" + title + "**", ""] + Bulleted(items);
    DivAsLines(title, items);
    LinesSnoc(ls, "");
    LinesJoin(ls + [""], "");
    var all := ls + ["", ""];
    assert ls + [""] + [""] == all;
    assert DivBlock(title, items) == Join(all, "\n") by {
      assert Lines(ls + [""]) == Lines(ls) + "\n";
      assert Lines(ls + [""]) + "" == Lines(ls + [""]);
    }
    DivNoNewline(title, items);
    SplitJoin(all, '\n');
  }

  /** The div block is the lines of its title, a blank line and the item lines, and a newline. */
  lemma DivAsLines(title: string, items: seq<string>)
    ensures DivBlock(title, items) == Lines(["**" + title + "**", ""] + Bulleted(items)) + "\n"
  {
    var ls := ["**" + title + "**", ""] + Bulleted(items);
    assert ls[1..] == [""] + Bulleted(items);
    assert ls[1..][1..] == Bulleted(items);
  }

  lemma DivNoNewline(title: string, items: seq<string>)
    requires '\n' !in title && forall i :: 0 <= i < |items| ==> '\n' !in items[i]
    ensures var all := ["**" + title + "**", ""] + Bulleted(items) + ["", ""];
      forall i :: 0 <= i < |all| ==> '\n' !in all[i]
  {
    var all := ["**" + title + "**", ""] + Bulleted(items) + ["", ""];
    assert '\n' !in "**" + title + "**";
    forall i | 0 <= i < |all| ensures '\n' !in all[i] {
      if 2 <= i < |all| - 2 {
        assert all[i] == Bulleted(items)[i - 2];
        assert '\n' !in " - ";
      }
    }
  }
}
