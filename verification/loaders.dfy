/** The line-parsing parts of `Register._load_menu` and
    `Register._load_employees`, with the file reading taken out: each loader is
    a function from the lines of the file to the records it keeps and an
    "errors detected" flag. Python's `float(...)` and `int(...)` on a token are
    parameters, partial functions that answer None where Python raises
    ValueError.

    As written, a line that parses but whose fields the Item or Employee
    constructor rejects (an empty barcode, a negative price, a level of 5)
    makes the constructor raise, and nothing in the loop catches it, so the
    whole load fails: `LoadMenuAsWritten` and `LoadEmployeesAsWritten` model
    that. `LoadMenu` and `LoadEmployees` skip such a line and raise the flag
    instead, as the loops' own comments promise; the register uses these. */
module Loaders {
  import opened Wrappers
  import opened PyValues
  import opened Text
  import opened Items
  import opened Employees

  /** `[token.strip() for token in tokens]` */
  function StripEach(ts: seq<string>): (r: seq<string>)
    ensures |r| == |ts|
    ensures forall k :: 0 <= k < |ts| ==> r[k] == Strip(ts[k])
  {
    seq(|ts|, k requires 0 <= k < |ts| => Strip(ts[k]))
  }

  /** The tokens of one line: strip it, split on '|', strip each token. */
  function Tokens(line: string): seq<string> {
    StripEach(Split(Strip(line), '|'))
  }

  /** The records of a file: blank lines (after stripping) are dropped, every
      other line becomes its list of tokens. */
  function Records(lines: seq<string>): (r: seq<seq<string>>)
    ensures |r| <= |lines|
  {
    if |lines| == 0 then []
    else
      var last := lines[|lines| - 1];
      Records(lines[..|lines| - 1]) + (if Strip(last) == "" then [] else [Tokens(last)])
  }

  /** Appending a line appends its tokens, unless it is blank. */
  lemma {:induction false} RecordsSnoc(lines: seq<string>, line: string)
    ensures Records(lines + [line])
            == Records(lines) + (if Strip(line) == "" then [] else [Tokens(line)])
  {
    assert (lines + [line])[..|lines|] == lines;
  }

  // ---------------------------------------------------------------- menu

  /** The running category and default price of the menu loop. */
  datatype MenuContext = MenuContext(category: string, defaultPrice: Option<real>)

  const StartContext := MenuContext("General", None)

  /** What one menu record asks for. */
  datatype MenuRecord =
    | Malformed
      /** a `#category|price` command; `newPrice` is None when it did not parse */
    | SetCategory(category: string, newPrice: Option<real>)
    | Entry(name: string, price: real, barcode: string, category: string,
            shortcut: Option<string>)

  /** The body of the menu loop up to the construction of the item. */
  function ClassifyMenuRecord(ctx: MenuContext, tokens: seq<string>,
                              parseFloat: string -> Option<real>): MenuRecord
  {
    if !(|tokens| == 2 || |tokens| == 3 || |tokens| == 4) then Malformed
    else if StartsWith(tokens[0], "#") then
      SetCategory(Strip(tokens[0][1..]), parseFloat(tokens[1]))
    else if |tokens| == 2 then
      if ctx.defaultPrice.None? then Malformed
      else Entry(tokens[1], ctx.defaultPrice.value, tokens[0], ctx.category, None)
    else
      var price := parseFloat(tokens[2]);
      if price.None? then Malformed
      else Entry(tokens[1], price.value, tokens[0], ctx.category,
                 if |tokens| == 4 then Some(tokens[3]) else None)
  }

  /** `Item(name=..., barcode=..., category=..., price=..., shortcut=...)` for
      an entry record; the price is the float `float(...)` produced. */
  function BuildItem(e: MenuRecord): Result<Item, Exception>
    requires e.Entry?
  {
    NewItem(PyStr(e.name), PyFloat(e.price), PyStr(e.barcode), PyStr(e.category),
            ShortcutValue(e.shortcut))
  }

  datatype MenuLoad = MenuLoad(items: seq<Item>, errorsDetected: bool, ctx: MenuContext)

  /** Whether a record raises the flag: malformed, a category whose price does
      not parse, or an entry the item constructor rejects. */
  predicate MenuRecordFlagged(ctx: MenuContext, tokens: seq<string>,
                              parseFloat: string -> Option<real>)
  {
    var rec := ClassifyMenuRecord(ctx, tokens, parseFloat);
    rec.Malformed? || (rec.SetCategory? && rec.newPrice.None?)
    || (rec.Entry? && BuildItem(rec).Failure?)
  }

  /** One pass of the menu loop, with rejected items skipped. */
  function MenuStep(st: MenuLoad, tokens: seq<string>, parseFloat: string -> Option<real>)
    : MenuLoad
  {
    var rec := ClassifyMenuRecord(st.ctx, tokens, parseFloat);
    match rec
    case Malformed => st.(errorsDetected := true)
    case SetCategory(c, p) =>
      MenuLoad(st.items, st.errorsDetected || p.None?,
               MenuContext(c, if p.Some? then p else st.ctx.defaultPrice))
    case Entry(_, _, _, _, _) =>
      match BuildItem(rec)
      case Success(it) => st.(items := st.items + [it])
      case Failure(_) => st.(errorsDetected := true)
  }

  /** The menu loop over a list of records. */
  function MenuParse(records: seq<seq<string>>, parseFloat: string -> Option<real>)
    : (r: MenuLoad)
    ensures |r.items| <= |records|
    ensures forall k :: 0 <= k < |r.items| ==> Items.WellFormed(r.items[k])
  {
    if |records| == 0 then MenuLoad([], false, StartContext)
    else
      var prev := MenuParse(records[..|records| - 1], parseFloat);
      MenuStep(prev, records[|records| - 1], parseFloat)
  }

  /** `_load_menu` on the lines of the menu file: never fails; every item it
      keeps passed the item constructor's checks. */
  function LoadMenu(lines: seq<string>, parseFloat: string -> Option<real>)
    : (r: (seq<Item>, bool))
    ensures |r.0| <= |lines|
    ensures forall k :: 0 <= k < |r.0| ==> Items.WellFormed(r.0[k])
  {
    var m := MenuParse(Records(lines), parseFloat);
    (m.items, m.errorsDetected)
  }

  /** Every token of every record is stripped. */
  predicate TokensTrimmed(records: seq<seq<string>>) {
    forall r, t :: 0 <= r < |records| && 0 <= t < |records[r]| ==> Trimmed(records[r][t])
  }

  /** Every item's name neither starts nor ends with whitespace. */
  predicate NamesTrimmed(items: seq<Item>) {
    forall k :: 0 <= k < |items| ==> Trimmed(items[k].name)
  }

  /** `Records` strips every token it produces. */
  lemma {:induction false} RecordsTrimmed(lines: seq<string>)
    ensures TokensTrimmed(Records(lines))
  {
    if |lines| > 0 {
      var last := lines[|lines| - 1];
      RecordsTrimmed(lines[..|lines| - 1]);
      if Strip(last) != "" {
        var toks := Tokens(last);
        forall t | 0 <= t < |toks| ensures Trimmed(toks[t]) {
          StripTrimmed(Split(Strip(last), '|')[t]);
        }
      }
    }
  }

  /** On stripped tokens the menu loop keeps only items with stripped
      names: an entry's name is its second token. */
  lemma {:induction false} MenuParseNamesTrimmed(records: seq<seq<string>>,
                                                 parseFloat: string -> Option<real>)
    requires TokensTrimmed(records)
    ensures NamesTrimmed(MenuParse(records, parseFloat).items)
  {
    if |records| > 0 {
      var front := records[..|records| - 1];
      assert TokensTrimmed(front) by {
        forall r, t | 0 <= r < |front| && 0 <= t < |front[r]| ensures Trimmed(front[r][t]) {
          assert front[r] == records[r];
        }
      }
      MenuParseNamesTrimmed(front, parseFloat);
      var prev := MenuParse(front, parseFloat);
      var tokens := records[|records| - 1];
      var rec := ClassifyMenuRecord(prev.ctx, tokens, parseFloat);
      assert MenuParse(records, parseFloat) == MenuStep(prev, tokens, parseFloat);
      var items := MenuParse(records, parseFloat).items;
      forall k | 0 <= k < |items| ensures Trimmed(items[k].name) {
        if rec.Entry? && BuildItem(rec).Success? {
          var it := BuildItem(rec).value;
          assert items == prev.items + [it];
          if k == |prev.items| {
            assert Trimmed(tokens[1]);
            assert PyStr(it.name) == PyStr(rec.name);
            assert it.name == rec.name == tokens[1];
          } else {
            assert items[k] == prev.items[k];
            assert Trimmed(prev.items[k].name);
          }
        } else {
          assert items == prev.items;
          assert Trimmed(prev.items[k].name);
        }
      }
    }
  }

  /** `_load_menu` strips every token, so every item it keeps has a name
      that neither starts nor ends with whitespace. */
  lemma LoadMenuNamesStripped(lines: seq<string>, parseFloat: string -> Option<real>)
    ensures NamesTrimmed(LoadMenu(lines, parseFloat).0)
  {
    var records := Records(lines);
    RecordsTrimmed(lines);
    MenuParseNamesTrimmed(records, parseFloat);
    assert LoadMenu(lines, parseFloat).0 == MenuParse(records, parseFloat).items;
  }

  /** The menu loop's rules for one more record: a record without 2 to 4
      fields is skipped and flagged; a `#` record sets the category even when
      its price does not parse (then the old default price stays and the flag
      goes up); a 2-field record needs a default price and takes it; a 3- or
      4-field record takes its own price, and a 4-field record also its
      shortcut; an entry is kept exactly when the item constructor accepts
      it, and a rejected one raises the flag. */
  lemma {:induction false} MenuLoopRules(records: seq<seq<string>>, tokens: seq<string>,
                                         parseFloat: string -> Option<real>)
    ensures var before := MenuParse(records, parseFloat);
            var after := MenuParse(records + [tokens], parseFloat);
            && (!(2 <= |tokens| <= 4) ==> after == before.(errorsDetected := true))
            && (2 <= |tokens| <= 4 && StartsWith(tokens[0], "#") ==>
                  after.items == before.items
                  && after.ctx.category == Strip(tokens[0][1..])
                  && (after.errorsDetected <==> before.errorsDetected || parseFloat(tokens[1]).None?)
                  && after.ctx.defaultPrice == (if parseFloat(tokens[1]).Some? then parseFloat(tokens[1])
                                                else before.ctx.defaultPrice))
            && (|tokens| == 2 && !StartsWith(tokens[0], "#") && before.ctx.defaultPrice.None? ==>
                  after == before.(errorsDetected := true))
            && (2 <= |tokens| <= 4 && !StartsWith(tokens[0], "#") ==> after.ctx == before.ctx)
            && (2 <= |tokens| <= 4 && !StartsWith(tokens[0], "#") && |after.items| > |before.items| ==>
                  var it := after.items[|after.items| - 1];
                  && after.items == before.items + [it]
                  && it.barcode == tokens[0] && it.name == tokens[1]
                  && it.category == before.ctx.category
                  && (|tokens| == 2 ==> it.price == before.ctx.defaultPrice.value && it.shortcut.None?)
                  && (|tokens| >= 3 ==> Some(it.price) == parseFloat(tokens[2]))
                  && (|tokens| == 3 ==> it.shortcut.None?)
                  && (|tokens| == 4 ==> it.shortcut == Some(tokens[3])))
            && (|after.items| > |before.items| || after.items == before.items)
            && (after.errorsDetected <==> before.errorsDetected
                                          || MenuRecordFlagged(before.ctx, tokens, parseFloat))
    ensures var before := MenuParse(records, parseFloat);
            var after := MenuParse(records + [tokens], parseFloat);
            var rec := ClassifyMenuRecord(before.ctx, tokens, parseFloat);
            && (rec.Entry? && BuildItem(rec).Success? ==> after.items == before.items + [BuildItem(rec).value])
            && (rec.Entry? && BuildItem(rec).Failure? ==> after.items == before.items)
  {
    assert (records + [tokens])[..|records|] == records;
  }

  /** The items the loop keeps only ever grow: what a prefix of the records
      kept is the start of what all of them keep. */
  lemma {:induction false} MenuItemsGrow(records: seq<seq<string>>, j: nat,
                                         parseFloat: string -> Option<real>)
    requires j <= |records|
    ensures MenuParse(records[..j], parseFloat).items <= MenuParse(records, parseFloat).items
    decreases |records| - j
  {
    if j < |records| {
      var n := |records| - 1;
      var init := records[..n];
      assert records == init + [records[n]];
      assert records[..j] == init[..j];
      MenuItemsGrow(init, j, parseFloat);
      MenuParseSnoc(init, records[n], parseFloat);
      var a, b := MenuParse(init[..j], parseFloat).items, MenuParse(init, parseFloat).items;
      var c := MenuParse(records, parseFloat).items;
      assert b <= c by { MenuStepKeepsItems(MenuParse(init, parseFloat), records[n], parseFloat); }
      assert a == c[..|a|] by { assert a == b[..|a|] && b == c[..|b|]; }
    } else {
      assert records[..j] == records;
    }
  }

  /** One pass of the loop never drops an item it already kept. */
  lemma MenuStepKeepsItems(st: MenuLoad, tokens: seq<string>, parseFloat: string -> Option<real>)
    ensures st.items <= MenuStep(st, tokens, parseFloat).items
  {
  }

  /** Every entry the item constructor accepts, judged in the context the
      records before it set up, is in the loaded menu, right after the items
      kept before it. */
  lemma MenuKeepsAccepted(records: seq<seq<string>>, k: nat, parseFloat: string -> Option<real>)
    requires k < |records|
    ensures var before := MenuParse(records[..k], parseFloat);
            var rec := ClassifyMenuRecord(before.ctx, records[k], parseFloat);
            rec.Entry? && BuildItem(rec).Success? ==>
              && |before.items| < |MenuParse(records, parseFloat).items|
              && MenuParse(records, parseFloat).items[|before.items|] == BuildItem(rec).value
  {
    assert records[..k + 1] == records[..k] + [records[k]];
    MenuParseSnoc(records[..k], records[k], parseFloat);
    MenuItemsGrow(records, k + 1, parseFloat);
  }

  lemma {:induction false} MenuParseSnoc(records: seq<seq<string>>, tokens: seq<string>,
                                         parseFloat: string -> Option<real>)
    ensures MenuParse(records + [tokens], parseFloat)
            == MenuStep(MenuParse(records, parseFloat), tokens, parseFloat)
  {
    assert (records + [tokens])[..|records|] == records;
  }

  /** One pass of the loop raises the flag exactly when it was already up or
      the record is flagged. */
  lemma MenuStepFlag(st: MenuLoad, tokens: seq<string>, parseFloat: string -> Option<real>)
    ensures MenuStep(st, tokens, parseFloat).errorsDetected
            <==> st.errorsDetected || MenuRecordFlagged(st.ctx, tokens, parseFloat)
  {
  }

  /** The flag is raised exactly when some record was flagged, judged in the
      category context the records before it had set up. */
  lemma {:induction false} MenuErrorsIffFlagged(records: seq<seq<string>>,
                                                parseFloat: string -> Option<real>)
    ensures MenuParse(records, parseFloat).errorsDetected
            <==> exists k :: 0 <= k < |records|
                   && MenuRecordFlagged(MenuParse(records[..k], parseFloat).ctx, records[k], parseFloat)
  {
    if |records| > 0 {
      var n := |records| - 1;
      var init, last := records[..n], records[n];
      assert records == init + [last];
      MenuErrorsIffFlagged(init, parseFloat);
      var before := MenuParse(init, parseFloat);
      assert MenuParse(records, parseFloat).errorsDetected
             <==> before.errorsDetected || MenuRecordFlagged(before.ctx, last, parseFloat) by {
        MenuParseSnoc(init, last, parseFloat);
        MenuStepFlag(before, last, parseFloat);
      }
      if before.errorsDetected {
        var k :| 0 <= k < n && MenuRecordFlagged(MenuParse(init[..k], parseFloat).ctx, init[k], parseFloat);
        assert records[..k] == init[..k] && records[k] == init[k];
      } else if MenuRecordFlagged(before.ctx, last, parseFloat) {
        assert records[..n] == init;
      } else {
        forall k | 0 <= k < |records|
          ensures !MenuRecordFlagged(MenuParse(records[..k], parseFloat).ctx, records[k], parseFloat)
        {
          if k < n {
            assert records[..k] == init[..k] && records[k] == init[k];
          }
        }
      }
    }
  }

  /** One pass of the menu loop as written: an entry the item constructor
      rejects raises out of the loop. */
  function MenuStepAsWritten(st: MenuLoad, tokens: seq<string>,
                             parseFloat: string -> Option<real>): Result<MenuLoad, Exception>
  {
    var rec := ClassifyMenuRecord(st.ctx, tokens, parseFloat);
    if rec.Entry? && BuildItem(rec).Failure? then Failure(BuildItem(rec).error)
    else Success(MenuStep(st, tokens, parseFloat))
  }

  function MenuParseAsWritten(records: seq<seq<string>>, parseFloat: string -> Option<real>)
    : Result<MenuLoad, Exception>
  {
    if |records| == 0 then Success(MenuLoad([], false, StartContext))
    else
      match MenuParseAsWritten(records[..|records| - 1], parseFloat)
      case Failure(e) => Failure(e)
      case Success(prev) => MenuStepAsWritten(prev, records[|records| - 1], parseFloat)
  }

  /** `_load_menu` as written: a ValueError from the item constructor escapes
      and the load fails. It fails exactly when some entry is rejected, and
      otherwise loads what `LoadMenu` loads. */
  function LoadMenuAsWritten(lines: seq<string>, parseFloat: string -> Option<real>)
    : (r: Result<(seq<Item>, bool), Exception>)
    ensures r.Success? ==> r.value == LoadMenu(lines, parseFloat)
    ensures r.Failure? <==> SomeEntryRejected(Records(lines), parseFloat)
  {
    var records := Records(lines);
    MenuAsWrittenAgrees(records, parseFloat);
    assert MenuParseAsWritten(records, parseFloat).Failure? <==> SomeEntryRejected(records, parseFloat);
    var w := MenuParseAsWritten(records, parseFloat);
    if w.Failure? then Failure(w.error) else Success((w.value.items, w.value.errorsDetected))
  }

  /** Some entry, judged in the context the records before it set up, is
      rejected by the item constructor. */
  predicate SomeEntryRejected(records: seq<seq<string>>, parseFloat: string -> Option<real>) {
    exists k :: 0 <= k < |records|
      && EntryRejected(MenuParse(records[..k], parseFloat).ctx, records[k], parseFloat)
  }

  /** Whenever the loader as written gets through, it agrees with the loader
      that skips rejected items; it fails exactly when some entry, in the
      context of the records before it, is rejected by the item constructor. */
  lemma MenuAsWrittenAgrees(records: seq<seq<string>>, parseFloat: string -> Option<real>)
    ensures MenuParseAsWritten(records, parseFloat).Success?
            ==> MenuParseAsWritten(records, parseFloat).value == MenuParse(records, parseFloat)
    ensures MenuParseAsWritten(records, parseFloat).Failure?
            <==> exists k :: 0 <= k < |records| && EntryRejected(MenuParse(records[..k], parseFloat).ctx,
                                                                 records[k], parseFloat)
  {
    MenuAsWrittenMatches(records, parseFloat);
    MenuAsWrittenFailsIff(records, parseFloat);
  }

  /** The loader as written computes the same loop state whenever it gets
      through. */
  lemma {:induction false} MenuAsWrittenMatches(records: seq<seq<string>>,
                                                parseFloat: string -> Option<real>)
    ensures MenuParseAsWritten(records, parseFloat).Success?
            ==> MenuParseAsWritten(records, parseFloat).value == MenuParse(records, parseFloat)
  {
    if |records| > 0 {
      MenuAsWrittenMatches(records[..|records| - 1], parseFloat);
    }
  }

  /** The loader as written fails exactly when some entry is rejected. */
  lemma {:induction false} MenuAsWrittenFailsIff(records: seq<seq<string>>,
                                                 parseFloat: string -> Option<real>)
    ensures MenuParseAsWritten(records, parseFloat).Failure?
            <==> exists k :: 0 <= k < |records| && EntryRejected(MenuParse(records[..k], parseFloat).ctx,
                                                                 records[k], parseFloat)
  {
    if |records| > 0 {
      var n := |records| - 1;
      var init, last := records[..n], records[n];
      assert records == init + [last];
      MenuAsWrittenFailsIff(init, parseFloat);
      var before := MenuParseAsWritten(init, parseFloat);
      if before.Failure? {
        assert MenuParseAsWritten(records, parseFloat).Failure?;
        var k :| 0 <= k < n && EntryRejected(MenuParse(init[..k], parseFloat).ctx, init[k], parseFloat);
        assert records[..k] == init[..k] && records[k] == init[k];
      } else {
        var ctx := MenuParse(init, parseFloat).ctx;
        assert MenuParseAsWritten(records, parseFloat).Failure? <==> EntryRejected(ctx, last, parseFloat) by {
          MenuAsWrittenMatches(init, parseFloat);
          assert MenuParseAsWritten(records, parseFloat)
                 == MenuStepAsWritten(before.value, last, parseFloat);
        }
        if EntryRejected(ctx, last, parseFloat) {
          assert records[..n] == init;
        } else {
          forall k | 0 <= k < |records|
            ensures !EntryRejected(MenuParse(records[..k], parseFloat).ctx, records[k], parseFloat)
          {
            if k < n {
              assert records[..k] == init[..k] && records[k] == init[k];
            }
          }
        }
      }
    }
  }

  predicate EntryRejected(ctx: MenuContext, tokens: seq<string>, parseFloat: string -> Option<real>) {
    var rec := ClassifyMenuRecord(ctx, tokens, parseFloat);
    rec.Entry? && BuildItem(rec).Failure?
  }

  lemma OneMenuRecord(tokens: seq<string>, parseFloat: string -> Option<real>)
    ensures MenuParse([tokens], parseFloat)
            == MenuStep(MenuLoad([], false, StartContext), tokens, parseFloat)
    ensures MenuParseAsWritten([tokens], parseFloat)
            == MenuStepAsWritten(MenuLoad([], false, StartContext), tokens, parseFloat)
  {
    assert [tokens][..0] == [];
  }

  lemma EmptyBarcodeLine()
    ensures Strip("|Gum|0.75\n") == "|Gum|0.75"
  {
    StripTrailingNewline("|Gum|0.75");
  }

  lemma EmptyBarcodeJoin()
    ensures Join(["", "Gum", "0.75"], '|') == "|Gum|0.75"
  {
    assert ["", "Gum", "0.75"][1..][1..] == ["0.75"];
  }

  lemma EmptyBarcodeFields()
    ensures var toks := ["", "Gum", "0.75"];
            forall k :: 0 <= k < |toks| ==> '|' !in toks[k] && Trimmed(toks[k])
  {
  }

  lemma EmptyBarcodeTokens()
    ensures Strip("|Gum|0.75\n") != ""
    ensures Tokens("|Gum|0.75\n") == ["", "Gum", "0.75"]
  {
    EmptyBarcodeLine();
    EmptyBarcodeJoin();
    EmptyBarcodeFields();
    SampleTokens("|Gum|0.75\n", "|Gum|0.75", ["", "Gum", "0.75"]);
  }

  lemma EmptyBarcodeRejected(parseFloat: string -> Option<real>)
    requires parseFloat("0.75") == Some(0.75)
    ensures MenuStepAsWritten(MenuLoad([], false, StartContext), ["", "Gum", "0.75"], parseFloat).Failure?
    ensures MenuStepAsWritten(MenuLoad([], false, StartContext), ["", "Gum", "0.75"], parseFloat)
              .error.ValueError?
    ensures MenuStep(MenuLoad([], false, StartContext), ["", "Gum", "0.75"], parseFloat)
            == MenuLoad([], true, StartContext)
  {
    var rec := ClassifyMenuRecord(StartContext, ["", "Gum", "0.75"], parseFloat);
    assert rec == Entry("Gum", 0.75, "", "General", None);
  }

  /** A well-formed line with an empty barcode: the loader as written fails
      with a ValueError, while the intended loader skips it and raises the
      flag. */
  lemma EmptyBarcodeAbortsMenuLoad(parseFloat: string -> Option<real>)
    requires parseFloat("0.75") == Some(0.75)
    ensures LoadMenuAsWritten(["|Gum|0.75\n"], parseFloat).Failure?
    ensures LoadMenuAsWritten(["|Gum|0.75\n"], parseFloat).error.ValueError?
    ensures LoadMenu(["|Gum|0.75\n"], parseFloat) == ([], true)
  {
    EmptyBarcodeTokens();
    EmptyBarcodeRejected(parseFloat);
    OneLineMenuFile("|Gum|0.75\n", parseFloat);
  }

  /** A menu file of one non-blank line is loaded by one pass of the loop. */
  lemma OneLineMenuFile(line: string, parseFloat: string -> Option<real>)
    requires Strip(line) != ""
    ensures var st := MenuStep(MenuLoad([], false, StartContext), Tokens(line), parseFloat);
            LoadMenu([line], parseFloat) == (st.items, st.errorsDetected)
    ensures var r := MenuStepAsWritten(MenuLoad([], false, StartContext), Tokens(line), parseFloat);
            r.Failure? ==> LoadMenuAsWritten([line], parseFloat) == Failure(r.error)
  {
    OneLineFile(line);
    OneMenuRecord(Tokens(line), parseFloat);
  }

  /** A line of nothing but Unicode whitespace (a no-break space and an
      ideographic space here) strips to nothing and is skipped like an empty
      line: the menu stays empty and nothing is flagged. */
  lemma UnicodeBlankLineSkipped(parseFloat: string -> Option<real>)
    ensures LoadMenu(["\U{00A0}\U{3000}\n"], parseFloat) == ([], false)
  {
    var line := "\U{00A0}\U{3000}\n";
    assert LStrip(line) == [];
    assert Records([line]) == [] by { RecordsSnoc([], line); assert [] + [line] == [line]; }
  }

  /** A `#category|price` record whose category is already stripped and
      whose price parses sets both and keeps everything else. */
  lemma CategoryStep(st: MenuLoad, category: string, priceText: string, price: real,
                     parseFloat: string -> Option<real>)
    requires Trimmed(category) && parseFloat(priceText) == Some(price)
    ensures MenuStep(st, ["#" + category, priceText], parseFloat)
            == MenuLoad(st.items, st.errorsDetected, MenuContext(category, Some(price)))
  {
    var tag := "#" + category;
    StartsWithChar(tag, '#');
    assert tag[1..] == category;
    StripFixed(category);
    assert ClassifyMenuRecord(st.ctx, [tag, priceText], parseFloat) == SetCategory(category, Some(price));
  }

  lemma SampleMenuCandy(parseFloat: string -> Option<real>, st: MenuLoad)
    requires parseFloat("1.00") == Some(1.0)
    ensures MenuStep(st, ["#Candy", "1.00"], parseFloat)
            == MenuLoad(st.items, st.errorsDetected, MenuContext("Candy", Some(1.0)))
  {
    assert "#Candy" == "#" + "Candy";
    assert Trimmed("Candy");
    CategoryStep(st, "Candy", "1.00", 1.0, parseFloat);
  }

  lemma SampleMenuBeverage(parseFloat: string -> Option<real>, st: MenuLoad)
    requires parseFloat("0.50") == Some(0.5)
    ensures MenuStep(st, ["#Beverage", "0.50"], parseFloat)
            == MenuLoad(st.items, st.errorsDetected, MenuContext("Beverage", Some(0.5)))
  {
    assert "#Beverage" == "#" + "Beverage";
    assert Trimmed("Beverage");
    CategoryStep(st, "Beverage", "0.50", 0.5, parseFloat);
  }

  lemma SampleMenuChocolate(parseFloat: string -> Option<real>, st: MenuLoad)
    requires st.ctx == MenuContext("Candy", Some(1.0))
    ensures MenuStep(st, ["001", "Chocolate bar"], parseFloat)
            == st.(items := st.items + [Item("Chocolate bar", 1.0, "001", "Candy", None)])
  {
    StartsWithChar("001", '#');
    var rec := ClassifyMenuRecord(st.ctx, ["001", "Chocolate bar"], parseFloat);
    assert rec == Entry("Chocolate bar", 1.0, "001", "Candy", None);
    assert BuildItem(rec) == Success(Item("Chocolate bar", 1.0, "001", "Candy", None));
  }

  lemma SampleMenuGum(parseFloat: string -> Option<real>, st: MenuLoad)
    requires parseFloat("0.75") == Some(0.75)
    requires st.ctx == MenuContext("Candy", Some(1.0))
    ensures MenuStep(st, ["002", "Gum", "0.75"], parseFloat)
            == st.(items := st.items + [Item("Gum", 0.75, "002", "Candy", None)])
  {
    StartsWithChar("002", '#');
    var rec := ClassifyMenuRecord(st.ctx, ["002", "Gum", "0.75"], parseFloat);
    assert rec == Entry("Gum", 0.75, "002", "Candy", None);
    assert BuildItem(rec) == Success(Item("Gum", 0.75, "002", "Candy", None));
  }

  lemma SampleMenuHotChocolate(parseFloat: string -> Option<real>, st: MenuLoad)
    requires parseFloat("0.50") == Some(0.5)
    requires st.ctx == MenuContext("Beverage", Some(0.5))
    ensures MenuStep(st, ["003", "Hot chocolate", "0.50", "hc"], parseFloat)
            == st.(items := st.items + [Item("Hot chocolate", 0.5, "003", "Beverage", Some("hc"))])
  {
    StartsWithChar("003", '#');
    var rec := ClassifyMenuRecord(st.ctx, ["003", "Hot chocolate", "0.50", "hc"], parseFloat);
    assert rec == Entry("Hot chocolate", 0.5, "003", "Beverage", Some("hc"));
    assert BuildItem(rec) == Success(Item("Hot chocolate", 0.5, "003", "Beverage", Some("hc")));
  }

  /** The records of the menu file in the register's own test fixture. */
  const SampleMenuRecords: seq<seq<string>> :=
    [["#Candy", "1.00"], ["001", "Chocolate bar"], ["002", "Gum", "0.75"],
     ["#Beverage", "0.50"], ["003", "Hot chocolate", "0.50", "hc"]]

  /** The menu loop over the fixture's records: a category line sets the
      default price that the next two-field line takes, a three-field line
      brings its own price, a four-field line also its shortcut, and nothing
      is flagged. */
  lemma SampleMenuParse(parseFloat: string -> Option<real>)
    requires parseFloat("1.00") == Some(1.0) && parseFloat("0.75") == Some(0.75)
    requires parseFloat("0.50") == Some(0.5)
    ensures MenuParse(SampleMenuRecords, parseFloat)
            == MenuLoad([Item("Chocolate bar", 1.0, "001", "Candy", None),
                         Item("Gum", 0.75, "002", "Candy", None),
                         Item("Hot chocolate", 0.5, "003", "Beverage", Some("hc"))],
                        false, MenuContext("Beverage", Some(0.5)))
  {
    var choc := Item("Chocolate bar", 1.0, "001", "Candy", None);
    var gum := Item("Gum", 0.75, "002", "Candy", None);
    var hot := Item("Hot chocolate", 0.5, "003", "Beverage", Some("hc"));
    var candy, beverage := MenuContext("Candy", Some(1.0)), MenuContext("Beverage", Some(0.5));
    var s0, s1, s2 := MenuLoad([], false, StartContext), MenuLoad([], false, candy),
                      MenuLoad([choc], false, candy);
    var s3, s4 := MenuLoad([choc, gum], false, candy), MenuLoad([choc, gum], false, beverage);
    var s5 := MenuLoad([choc, gum, hot], false, beverage);
    var states := [s0, s1, s2, s3, s4, s5];
    var rs := SampleMenuRecords;
    forall k | 0 <= k < 5 ensures MenuStep(states[k], rs[k], parseFloat) == states[k + 1] {
      if k == 0 {
        SampleMenuCandy(parseFloat, s0);
      } else if k == 1 {
        SampleMenuChocolate(parseFloat, s1);
      } else if k == 2 {
        SampleMenuGum(parseFloat, s2);
      } else if k == 3 {
        SampleMenuBeverage(parseFloat, s3);
      } else {
        SampleMenuHotChocolate(parseFloat, s4);
      }
    }
    MenuParseFollowsRun(SampleMenuRecords, states, parseFloat);
  }

  /** `states` is the run of the menu loop over `rs`, state by state. */
  predicate MenuRun(rs: seq<seq<string>>, states: seq<MenuLoad>, parseFloat: string -> Option<real>) {
    |states| == |rs| + 1 && states[0] == MenuLoad([], false, StartContext)
    && forall k :: 0 <= k < |rs| ==> MenuStep(states[k], rs[k], parseFloat) == states[k + 1]
  }

  lemma MenuRunPrefix(rs: seq<seq<string>>, states: seq<MenuLoad>, parseFloat: string -> Option<real>)
    requires |rs| > 0 && MenuRun(rs, states, parseFloat)
    ensures MenuRun(rs[..|rs| - 1], states[..|rs|], parseFloat)
  {
    var n := |rs| - 1;
    forall k | 0 <= k < n
      ensures MenuStep(states[..|rs|][k], rs[..n][k], parseFloat) == states[..|rs|][k + 1]
    {
      assert states[..|rs|][k] == states[k] && rs[..n][k] == rs[k];
      assert states[..|rs|][k + 1] == states[k + 1];
    }
  }

  /** Following a run of the menu loop state by state reaches what the loop
      computes. */
  lemma {:induction false} MenuParseFollowsRun(rs: seq<seq<string>>, states: seq<MenuLoad>,
                                               parseFloat: string -> Option<real>)
    requires MenuRun(rs, states, parseFloat)
    ensures MenuParse(rs, parseFloat) == states[|rs|]
  {
    if |rs| > 0 {
      var n := |rs| - 1;
      assert rs[..n] + [rs[n]] == rs;
      MenuRunPrefix(rs, states, parseFloat);
      MenuParseFollowsRun(rs[..n], states[..n + 1], parseFloat);
      MenuParseSnoc(rs[..n], rs[n], parseFloat);
    }
  }

  /** The tokens of a line, when its stripped text is the given pieces joined
      by '|' and every piece is already stripped. */
  lemma SampleTokens(line: string, body: string, pieces: seq<string>)
    requires Strip(line) == body
    requires |pieces| >= 1 && Join(pieces, '|') == body
    requires forall k :: 0 <= k < |pieces| ==> '|' !in pieces[k] && Trimmed(pieces[k])
    ensures Tokens(line) == pieces
  {
    SplitUnique(pieces, '|');
    forall k | 0 <= k < |pieces| ensures Strip(pieces[k]) == pieces[k] {
      StripFixed(pieces[k]);
    }
  }

  /** A five-element display is five appended singletons. */
  lemma FiveSnoc<X>(a: X, b: X, c: X, d: X, e: X)
    ensures [a] + [b] + [c] + [d] + [e] == [a, b, c, d, e]
  {
  }

  /** Five non-blank lines give five records, each line's tokens. */
  lemma RecordsOfFive(l0: string, l1: string, l2: string, l3: string, l4: string)
    requires Strip(l0) != "" && Strip(l1) != "" && Strip(l2) != "" && Strip(l3) != "" && Strip(l4) != ""
    ensures Records([l0, l1, l2, l3, l4]) == [Tokens(l0), Tokens(l1), Tokens(l2), Tokens(l3), Tokens(l4)]
  {
    FiveSnoc(l0, l1, l2, l3, l4);
    FiveSnoc(Tokens(l0), Tokens(l1), Tokens(l2), Tokens(l3), Tokens(l4));
    var f1: seq<string> := [l0];
    assert Records(f1) == [Tokens(l0)] by {
      RecordsSnoc([], l0);
      assert [] + [l0] == f1;
    }
    RecordsSnoc(f1, l1);
    RecordsSnoc(f1 + [l1], l2);
    RecordsSnoc(f1 + [l1] + [l2], l3);
    RecordsSnoc(f1 + [l1] + [l2] + [l3], l4);
  }

  /** A fixture line: fields free of pipes and surrounding whitespace,
      joined by pipes into a body that starts and ends with a non-space,
      then a newline. */
  lemma FixtureTokens(line: string, body: string, pieces: seq<string>)
    requires line == body + "\n" && body != [] && !IsSpace(body[0]) && !IsSpace(body[|body| - 1])
    requires |pieces| >= 1 && Join(pieces, '|') == body
    requires forall k :: 0 <= k < |pieces| ==> '|' !in pieces[k] && Trimmed(pieces[k])
    ensures Strip(line) != "" && Tokens(line) == pieces
  {
    StripTrailingNewline(body);
    SampleTokens(line, body, pieces);
  }

  /** The lines of the fixture's menu file. */
  const SampleMenuLines: seq<string> :=
    ["#Candy|1.00\n", "001|Chocolate bar\n", "002|Gum|0.75\n",
     "#Beverage|0.50\n", "003|Hot chocolate|0.50|hc\n"]

  lemma CandyLineTokens()
    ensures Strip("#Candy|1.00\n") != "" && Tokens("#Candy|1.00\n") == ["#Candy", "1.00"]
  {
    assert ["#Candy", "1.00"][1..] == ["1.00"];
    FixtureTokens("#Candy|1.00\n", "#Candy|1.00", ["#Candy", "1.00"]);
  }

  lemma ChocolateLineTokens()
    ensures Strip("001|Chocolate bar\n") != ""
    ensures Tokens("001|Chocolate bar\n") == ["001", "Chocolate bar"]
  {
    assert ["001", "Chocolate bar"][1..] == ["Chocolate bar"];
    FixtureTokens("001|Chocolate bar\n", "001|Chocolate bar", ["001", "Chocolate bar"]);
  }

  lemma GumLineTokens()
    ensures Strip("002|Gum|0.75\n") != "" && Tokens("002|Gum|0.75\n") == ["002", "Gum", "0.75"]
  {
    assert ["002", "Gum", "0.75"][1..][1..] == ["0.75"];
    FixtureTokens("002|Gum|0.75\n", "002|Gum|0.75", ["002", "Gum", "0.75"]);
  }

  lemma BeverageLineTokens()
    ensures Strip("#Beverage|0.50\n") != "" && Tokens("#Beverage|0.50\n") == ["#Beverage", "0.50"]
  {
    assert ["#Beverage", "0.50"][1..] == ["0.50"];
    FixtureTokens("#Beverage|0.50\n", "#Beverage|0.50", ["#Beverage", "0.50"]);
  }

  lemma HotChocolateLineTokens()
    ensures Strip("003|Hot chocolate|0.50|hc\n") != ""
    ensures Tokens("003|Hot chocolate|0.50|hc\n") == ["003", "Hot chocolate", "0.50", "hc"]
  {
    assert ["003", "Hot chocolate", "0.50", "hc"][1..][1..][1..] == ["hc"];
    FixtureTokens("003|Hot chocolate|0.50|hc\n", "003|Hot chocolate|0.50|hc",
                  ["003", "Hot chocolate", "0.50", "hc"]);
  }

  /** The fixture's menu file splits into `SampleMenuRecords`. */
  lemma SampleMenuRecordsOfLines()
    ensures Records(SampleMenuLines) == SampleMenuRecords
  {
    CandyLineTokens();
    ChocolateLineTokens();
    GumLineTokens();
    BeverageLineTokens();
    HotChocolateLineTokens();
    var ls, rs := SampleMenuLines, SampleMenuRecords;
    RecordsOfFive(ls[0], ls[1], ls[2], ls[3], ls[4]);
    assert [ls[0], ls[1], ls[2], ls[3], ls[4]] == ls;
    assert [rs[0], rs[1], rs[2], rs[3], rs[4]] == rs;
  }

  /** Loading the fixture's menu file gives the three items the tests expect,
      with nothing flagged. */
  lemma SampleMenu(parseFloat: string -> Option<real>)
    requires parseFloat("1.00") == Some(1.0) && parseFloat("0.75") == Some(0.75)
    requires parseFloat("0.50") == Some(0.5)
    ensures LoadMenu(SampleMenuLines, parseFloat)
            == ([Item("Chocolate bar", 1.0, "001", "Candy", None),
                 Item("Gum", 0.75, "002", "Candy", None),
                 Item("Hot chocolate", 0.5, "003", "Beverage", Some("hc"))], false)
  {
    SampleMenuRecordsOfLines();
    SampleMenuParse(parseFloat);
  }

  // ----------------------------------------------------------- employees

  datatype EmployeeRecord =
    | BadRecord
    | Person(name: string, barcode: string, code: string, level: int)

  /** The body of the employee loop up to the construction: four fields, the
      last one an integer. */
  function ClassifyEmployeeRecord(tokens: seq<string>, parseInt: string -> Option<int>)
    : EmployeeRecord
  {
    if |tokens| != 4 then BadRecord
    else
      var level := parseInt(tokens[3]);
      if level.None? then BadRecord
      else Person(tokens[0], tokens[1], tokens[2], level.value)
  }

  function BuildEmployee(p: EmployeeRecord): Result<Employee, Exception>
    requires p.Person?
  {
    NewEmployee(PyStr(p.name), PyStr(p.barcode), PyStr(p.code), PyInt(p.level))
  }

  datatype EmployeeLoad = EmployeeLoad(employees: seq<Employee>, errorsDetected: bool)

  function EmployeeStep(st: EmployeeLoad, tokens: seq<string>, parseInt: string -> Option<int>)
    : EmployeeLoad
  {
    var rec := ClassifyEmployeeRecord(tokens, parseInt);
    if rec.BadRecord? then st.(errorsDetected := true)
    else
      match BuildEmployee(rec)
      case Success(e) => st.(employees := st.employees + [e])
      case Failure(_) => st.(errorsDetected := true)
  }

  function EmployeeParse(records: seq<seq<string>>, parseInt: string -> Option<int>)
    : (r: EmployeeLoad)
    ensures |r.employees| <= |records|
    ensures forall k :: 0 <= k < |r.employees| ==> Employees.WellFormed(r.employees[k])
  {
    if |records| == 0 then EmployeeLoad([], false)
    else EmployeeStep(EmployeeParse(records[..|records| - 1], parseInt), records[|records| - 1], parseInt)
  }

  /** `_load_employees` on the lines of the employees file: never fails;
      every employee it keeps passed the constructor's checks. */
  function LoadEmployees(lines: seq<string>, parseInt: string -> Option<int>)
    : (r: (seq<Employee>, bool))
    ensures |r.0| <= |lines|
    ensures forall k :: 0 <= k < |r.0| ==> Employees.WellFormed(r.0[k])
  {
    var m := EmployeeParse(Records(lines), parseInt);
    (m.employees, m.errorsDetected)
  }

  /** A record is flagged when it does not have four fields, its level is not
      an integer, or the employee constructor rejects it. */
  predicate EmployeeRecordFlagged(tokens: seq<string>, parseInt: string -> Option<int>) {
    var rec := ClassifyEmployeeRecord(tokens, parseInt);
    rec.BadRecord? || BuildEmployee(rec).Failure?
  }

  /** The employee loop keeps exactly the records that pass, in order, and
      raises the flag exactly when some record did not. */
  lemma EmployeeLoopKeepsValidRecords(records: seq<seq<string>>, parseInt: string -> Option<int>)
    ensures EmployeeParse(records, parseInt).errorsDetected
            <==> exists k :: 0 <= k < |records| && EmployeeRecordFlagged(records[k], parseInt)
    ensures |EmployeeParse(records, parseInt).employees|
            == |records| - FlaggedCount(records, parseInt)
    ensures EmployeeParse(records, parseInt).employees == KeptEmployees(records, parseInt)
  {
    EmployeeFlagIffSomeFlagged(records, parseInt);
    EmployeeParseIsKept(records, parseInt);
    KeptEmployeesCount(records, parseInt);
  }

  lemma {:induction false} EmployeeFlagIffSomeFlagged(records: seq<seq<string>>,
                                                      parseInt: string -> Option<int>)
    ensures EmployeeParse(records, parseInt).errorsDetected
            <==> exists k :: 0 <= k < |records| && EmployeeRecordFlagged(records[k], parseInt)
  {
    if |records| > 0 {
      var n := |records| - 1;
      var init := records[..n];
      EmployeeFlagIffSomeFlagged(init, parseInt);
      assert forall k :: 0 <= k < n ==> records[k] == init[k];
    }
  }

  lemma {:induction false} EmployeeParseIsKept(records: seq<seq<string>>,
                                               parseInt: string -> Option<int>)
    ensures EmployeeParse(records, parseInt).employees == KeptEmployees(records, parseInt)
  {
    if |records| > 0 {
      var n := |records| - 1;
      var init := records[..n];
      EmployeeParseIsKept(init, parseInt);
      assert records == init + [records[n]];
      KeptEmployeesSnoc(init, records[n], parseInt);
    }
  }

  /** As many employees are kept as records pass. */
  lemma {:induction false} KeptEmployeesCount(records: seq<seq<string>>,
                                              parseInt: string -> Option<int>)
    ensures |KeptEmployees(records, parseInt)| == |records| - FlaggedCount(records, parseInt)
  {
    if |records| > 0 {
      var n := |records| - 1;
      var init := records[..n];
      KeptEmployeesCount(init, parseInt);
      assert records == init + [records[n]];
      KeptEmployeesSnoc(init, records[n], parseInt);
    }
  }

  /** The employee a record stands for, if it passes; nothing otherwise. */
  function KeptFrom(tokens: seq<string>, parseInt: string -> Option<int>): (r: seq<Employee>)
    ensures |r| <= 1
  {
    if EmployeeRecordFlagged(tokens, parseInt) then []
    else [BuildEmployee(ClassifyEmployeeRecord(tokens, parseInt)).value]
  }

  /** The employees of the records that pass, front to back: the list
      comprehension the loop amounts to. */
  function KeptEmployees(records: seq<seq<string>>, parseInt: string -> Option<int>): seq<Employee> {
    if |records| == 0 then []
    else KeptFrom(records[0], parseInt) + KeptEmployees(records[1..], parseInt)
  }

  lemma {:induction false} KeptEmployeesSnoc(records: seq<seq<string>>, tokens: seq<string>,
                                             parseInt: string -> Option<int>)
    ensures KeptEmployees(records + [tokens], parseInt)
            == KeptEmployees(records, parseInt) + KeptFrom(tokens, parseInt)
  {
    if |records| == 0 {
      assert [tokens][1..] == [];
    } else {
      assert (records + [tokens])[0] == records[0];
      assert (records + [tokens])[1..] == records[1..] + [tokens];
      KeptEmployeesSnoc(records[1..], tokens, parseInt);
    }
  }

  function FlaggedCount(records: seq<seq<string>>, parseInt: string -> Option<int>): nat {
    if |records| == 0 then 0
    else FlaggedCount(records[..|records| - 1], parseInt)
         + (if EmployeeRecordFlagged(records[|records| - 1], parseInt) then 1 else 0)
  }

  /** A field that the file can carry unchanged: no '|' inside, no whitespace
      at either end. */
  predicate Storable(s: string) {
    '|' !in s && Trimmed(s)
  }

  /** An employee the employees file can hold and give back: well formed,
      with fields that carry no '|' and no surrounding whitespace, and a level
      that `int` reads back from its `str` form. */
  predicate Writable(e: Employee, parseInt: string -> Option<int>) {
    Employees.WellFormed(e) && Storable(e.name) && Storable(e.barcode) && Storable(e.code)
    && parseInt(IntToString(e.level)) == Some(e.level)
  }

  /** Tokens that are already stripped stay as they are. */
  lemma StripEachFixed(ts: seq<string>)
    requires forall k :: 0 <= k < |ts| ==> Trimmed(ts[k])
    ensures StripEach(ts) == ts
  {
    forall k | 0 <= k < |ts| ensures Strip(ts[k]) == ts[k] {
      StripFixed(ts[k]);
    }
  }

  /** The text form starts with the name and ends with the last digit of the
      level, so it has no whitespace at either end. */
  lemma EmployeeTextTrimmed(e: Employee)
    requires |e.name| > 0 && Trimmed(e.name)
    ensures ToText(e) != [] && Trimmed(ToText(e))
  {
    var text := ToText(e);
    var lvl := IntToString(e.level);
    assert text[0] == e.name[0] by {
      assert text == e.name + ("|" + e.barcode + "|" + e.code + "|" + lvl);
    }
    assert text[|text| - 1] == lvl[|lvl| - 1] by {
      assert text == (e.name + "|" + e.barcode + "|" + e.code + "|") + lvl;
    }
  }

  /** The text form of an employee, as one line of the employees file,
      reads back as the employee's four fields. */
  lemma {:induction false} EmployeeLineTokens(e: Employee)
    requires |e.name| > 0
    requires Storable(e.name) && Storable(e.barcode) && Storable(e.code)
    ensures Strip(ToText(e) + "\n") == ToText(e) != ""
    ensures Tokens(ToText(e) + "\n") == [e.name, e.barcode, e.code, IntToString(e.level)]
  {
    var text := ToText(e);
    var lvl := IntToString(e.level);
    EmployeeTextTrimmed(e);
    StripTrailingNewline(text);
    ToTextSplits(e);
    var pieces := [e.name, e.barcode, e.code, lvl];
    assert Trimmed(lvl);
    StripEachFixed(pieces);
  }

  /** A writable employee's record is kept and gives back that employee. */
  lemma EmployeeRecordRoundTrip(st: EmployeeLoad, e: Employee, parseInt: string -> Option<int>)
    requires Writable(e, parseInt)
    ensures EmployeeStep(st, [e.name, e.barcode, e.code, IntToString(e.level)], parseInt)
            == st.(employees := st.employees + [e])
  {
    var rec := ClassifyEmployeeRecord([e.name, e.barcode, e.code, IntToString(e.level)], parseInt);
    assert rec == Person(e.name, e.barcode, e.code, e.level);
    NewEmployeeRoundTrip(e);
  }

  lemma {:induction false} EmployeeParseSnoc(records: seq<seq<string>>, tokens: seq<string>,
                                             parseInt: string -> Option<int>)
    ensures EmployeeParse(records + [tokens], parseInt)
            == EmployeeStep(EmployeeParse(records, parseInt), tokens, parseInt)
  {
    assert (records + [tokens])[..|records|] == records;
  }

  /** Writing each employee's text form on its own line and loading the file
      gives back the same employees, in order, with no error flagged. */
  lemma {:induction false} EmployeesFileRoundTrip(es: seq<Employee>, parseInt: string -> Option<int>)
    requires forall k :: 0 <= k < |es| ==> Writable(es[k], parseInt)
    ensures EmployeeParse(Records(EmployeesFile(es)), parseInt) == EmployeeLoad(es, false)
  {
    if |es| > 0 {
      var n := |es| - 1;
      var init, e := es[..n], es[n];
      assert init + [e] == es;
      assert forall k :: 0 <= k < n ==> init[k] == es[k];
      EmployeesFileRoundTrip(init, parseInt);
      var line := ToText(e) + "\n";
      assert EmployeesFile(es) == EmployeesFile(init) + [line];
      EmployeeLineTokens(e);
      RecordsSnoc(EmployeesFile(init), line);
      var recs := Records(EmployeesFile(init));
      assert Records(EmployeesFile(es)) == recs + [Tokens(line)];
      EmployeeParseSnoc(recs, Tokens(line), parseInt);
      EmployeeRecordRoundTrip(EmployeeLoad(init, false), e, parseInt);
    }
  }

  /** The same, for `_load_employees` itself. */
  lemma EmployeesFileLoads(es: seq<Employee>, parseInt: string -> Option<int>)
    requires forall k :: 0 <= k < |es| ==> Writable(es[k], parseInt)
    ensures LoadEmployees(EmployeesFile(es), parseInt) == (es, false)
  {
    EmployeesFileRoundTrip(es, parseInt);
  }

  /** The employees file holding one text-form line per employee. */
  function EmployeesFile(es: seq<Employee>): (lines: seq<string>)
    ensures |lines| == |es|
  {
    if |es| == 0 then [] else EmployeesFile(es[..|es| - 1]) + [ToText(es[|es| - 1]) + "\n"]
  }

  function EmployeeStepAsWritten(st: EmployeeLoad, tokens: seq<string>,
                                 parseInt: string -> Option<int>): Result<EmployeeLoad, Exception>
  {
    var rec := ClassifyEmployeeRecord(tokens, parseInt);
    if rec.Person? && BuildEmployee(rec).Failure? then Failure(BuildEmployee(rec).error)
    else Success(EmployeeStep(st, tokens, parseInt))
  }

  function EmployeeParseAsWritten(records: seq<seq<string>>, parseInt: string -> Option<int>)
    : Result<EmployeeLoad, Exception>
  {
    if |records| == 0 then Success(EmployeeLoad([], false))
    else
      match EmployeeParseAsWritten(records[..|records| - 1], parseInt)
      case Failure(e) => Failure(e)
      case Success(prev) => EmployeeStepAsWritten(prev, records[|records| - 1], parseInt)
  }

  /** Some four-field record with an integer level is rejected by the
      employee constructor. */
  predicate SomePersonRejected(records: seq<seq<string>>, parseInt: string -> Option<int>) {
    exists k :: 0 <= k < |records| && PersonRejected(records[k], parseInt)
  }

  /** `_load_employees` as written: a ValueError from the employee
      constructor escapes and the load fails. */
  function LoadEmployeesAsWritten(lines: seq<string>, parseInt: string -> Option<int>)
    : (r: Result<(seq<Employee>, bool), Exception>)
    ensures r.Success? ==> r.value == LoadEmployees(lines, parseInt)
    ensures r.Failure? <==> SomePersonRejected(Records(lines), parseInt)
  {
    var records := Records(lines);
    EmployeesAsWrittenAgrees(records, parseInt);
    assert EmployeeParseAsWritten(records, parseInt).Failure? <==> SomePersonRejected(records, parseInt);
    var w := EmployeeParseAsWritten(records, parseInt);
    if w.Failure? then Failure(w.error) else Success((w.value.employees, w.value.errorsDetected))
  }

  /** The employee loader as written agrees with the intended one whenever it
      gets through, and fails exactly when some four-field record with an
      integer level is rejected by the employee constructor. */
  lemma {:induction false} EmployeesAsWrittenAgrees(records: seq<seq<string>>,
                                                    parseInt: string -> Option<int>)
    ensures EmployeeParseAsWritten(records, parseInt).Success?
            ==> EmployeeParseAsWritten(records, parseInt).value == EmployeeParse(records, parseInt)
    ensures EmployeeParseAsWritten(records, parseInt).Failure?
            <==> exists k :: 0 <= k < |records| && PersonRejected(records[k], parseInt)
  {
    if |records| > 0 {
      var n := |records| - 1;
      var init := records[..n];
      EmployeesAsWrittenAgrees(init, parseInt);
      assert forall k :: 0 <= k < n ==> records[k] == init[k];
    }
  }

  predicate PersonRejected(tokens: seq<string>, parseInt: string -> Option<int>) {
    var rec := ClassifyEmployeeRecord(tokens, parseInt);
    rec.Person? && BuildEmployee(rec).Failure?
  }

  /** A file of one non-blank line has one record. */
  lemma OneLineFile(line: string)
    requires Strip(line) != ""
    ensures Records([line]) == [Tokens(line)]
  {
    assert [line][..0] == [];
  }

  /** One record is loaded by one pass of the loop. */
  lemma OneEmployeeRecord(tokens: seq<string>, parseInt: string -> Option<int>)
    ensures EmployeeParse([tokens], parseInt) == EmployeeStep(EmployeeLoad([], false), tokens, parseInt)
    ensures EmployeeParseAsWritten([tokens], parseInt)
            == EmployeeStepAsWritten(EmployeeLoad([], false), tokens, parseInt)
  {
    assert [tokens][..0] == [];
  }

  lemma LevelFiveLine()
    ensures Strip("Bob|3333|bob|5\n") == "Bob|3333|bob|5"
  {
    StripTrailingNewline("Bob|3333|bob|5");
  }

  lemma LevelFiveJoin()
    ensures Join(["Bob", "3333", "bob", "5"], '|') == "Bob|3333|bob|5"
  {
    assert ["Bob", "3333", "bob", "5"][1..][1..][1..] == ["5"];
  }

  lemma LevelFiveFields()
    ensures var toks := ["Bob", "3333", "bob", "5"];
            forall k :: 0 <= k < |toks| ==> '|' !in toks[k] && Trimmed(toks[k])
  {
  }

  lemma LevelFiveTokens()
    ensures Strip("Bob|3333|bob|5\n") != ""
    ensures Tokens("Bob|3333|bob|5\n") == ["Bob", "3333", "bob", "5"]
  {
    LevelFiveLine();
    LevelFiveJoin();
    LevelFiveFields();
    SampleTokens("Bob|3333|bob|5\n", "Bob|3333|bob|5", ["Bob", "3333", "bob", "5"]);
  }

  lemma LevelFiveRejected(parseInt: string -> Option<int>)
    requires parseInt("5") == Some(5)
    ensures PersonRejected(["Bob", "3333", "bob", "5"], parseInt)
    ensures EmployeeStepAsWritten(EmployeeLoad([], false), ["Bob", "3333", "bob", "5"], parseInt).Failure?
    ensures EmployeeStepAsWritten(EmployeeLoad([], false), ["Bob", "3333", "bob", "5"], parseInt).error.ValueError?
    ensures EmployeeStep(EmployeeLoad([], false), ["Bob", "3333", "bob", "5"], parseInt) == EmployeeLoad([], true)
  {
    var rec := ClassifyEmployeeRecord(["Bob", "3333", "bob", "5"], parseInt);
    assert rec == Person("Bob", "3333", "bob", 5);
  }

  /** A well-formed employee line with level 5: the loader as written fails
      with a ValueError, the intended loader skips it and raises the flag. */
  lemma LevelFiveAbortsEmployeeLoad(parseInt: string -> Option<int>)
    requires parseInt("5") == Some(5)
    ensures LoadEmployeesAsWritten(["Bob|3333|bob|5\n"], parseInt).Failure?
    ensures LoadEmployeesAsWritten(["Bob|3333|bob|5\n"], parseInt).error.ValueError?
    ensures LoadEmployees(["Bob|3333|bob|5\n"], parseInt) == ([], true)
  {
    LevelFiveTokens();
    OneLineFile("Bob|3333|bob|5\n");
    OneEmployeeRecord(["Bob", "3333", "bob", "5"], parseInt);
    LevelFiveRejected(parseInt);
  }

  /** The employees of the register's own test fixture. */
  const SampleEmployees: seq<Employee> :=
    [Employee("Admin", "2222", "admin", 2), Employee("Employee", "1111", "employee", 1),
     Employee("Guest", "0000", "guest", 0)]

  lemma SmallLevelText()
    ensures IntToString(2) == "2" && IntToString(1) == "1" && IntToString(0) == "0"
  {
    assert DigitChar(2) == '2' && DigitChar(1) == '1' && DigitChar(0) == '0';
  }

  lemma SampleEmployeesWritable(parseInt: string -> Option<int>)
    requires parseInt("2") == Some(2) && parseInt("1") == Some(1) && parseInt("0") == Some(0)
    ensures forall k :: 0 <= k < |SampleEmployees| ==> Writable(SampleEmployees[k], parseInt)
  {
    SmallLevelText();
    forall k | 0 <= k < |SampleEmployees| ensures Writable(SampleEmployees[k], parseInt) {
      var e := SampleEmployees[k];
      assert Trimmed(e.name) && Trimmed(e.barcode) && Trimmed(e.code);
    }
  }

  /** Appending an employee appends its text-form line. */
  lemma EmployeesFileSnoc(es: seq<Employee>, e: Employee)
    ensures EmployeesFile(es + [e]) == EmployeesFile(es) + [ToText(e) + "\n"]
  {
    assert (es + [e])[..|es|] == es;
  }

  /** One line of the employees file, spelled out. */
  lemma TextLine(e: Employee, level: string)
    requires IntToString(e.level) == level
    ensures ToText(e) + "\n" == e.name + "|" + e.barcode + "|" + e.code + "|" + level + "\n"
  {
  }

  lemma AdminLine()
    ensures ToText(SampleEmployees[0]) + "\n" == "Admin|2222|admin|2\n"
  {
    SmallLevelText();
    TextLine(SampleEmployees[0], "2");
  }

  lemma EmployeeLine()
    ensures ToText(SampleEmployees[1]) + "\n" == "Employee|1111|employee|1\n"
  {
    SmallLevelText();
    TextLine(SampleEmployees[1], "1");
  }

  lemma GuestLine()
    ensures ToText(SampleEmployees[2]) + "\n" == "Guest|0000|guest|0\n"
  {
    SmallLevelText();
    TextLine(SampleEmployees[2], "0");
  }

  lemma SampleEmployeesText()
    ensures EmployeesFile(SampleEmployees)
            == ["Admin|2222|admin|2\n", "Employee|1111|employee|1\n", "Guest|0000|guest|0\n"]
  {
    var es := SampleEmployees;
    AdminLine();
    EmployeeLine();
    GuestLine();
    EmployeesFileSnoc([], es[0]);
    EmployeesFileSnoc([es[0]], es[1]);
    EmployeesFileSnoc([es[0], es[1]], es[2]);
    assert [] + [es[0]] == [es[0]];
    assert [es[0]] + [es[1]] == [es[0], es[1]];
    assert [es[0], es[1]] + [es[2]] == es;
  }

  /** The fixture's employees file, one `name|barcode|code|level` line each,
      loads back as those three employees with nothing flagged. */
  lemma SampleEmployeesLoad(parseInt: string -> Option<int>)
    requires parseInt("2") == Some(2) && parseInt("1") == Some(1) && parseInt("0") == Some(0)
    ensures LoadEmployees(["Admin|2222|admin|2\n", "Employee|1111|employee|1\n", "Guest|0000|guest|0\n"],
                          parseInt)
            == (SampleEmployees, false)
  {
    SampleEmployeesWritable(parseInt);
    EmployeesFileLoads(SampleEmployees, parseInt);
    SampleEmployeesText();
  }
}
