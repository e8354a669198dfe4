/** The argument rewriting of extensions/anthropic/cli-shared.ts. */
module PermissionArgs {
  import opened Base

  const LEGACY_SKIP := "--dangerously-skip-permissions"
  const PERMISSION_MODE := "--permission-mode"
  const BYPASS_MODE := "bypassPermissions"

  predicate IsModeAssignment(arg: string) {
    PERMISSION_MODE + "=" <= arg
  }

  /** An argument list read from the left: a mode flag takes the next token, whatever it is, as its value. */
  datatype Item = LegacyFlag | ModeFlag(value: Option<string>) | Other(arg: string)

  function Read(args: seq<string>): seq<Item>
    decreases |args|
  {
    if args == [] then []
    else if args[0] == LEGACY_SKIP then [LegacyFlag] + Read(args[1..])
    else if args[0] == PERMISSION_MODE then
      if |args| == 1 then [ModeFlag(None)] else [ModeFlag(Some(args[1]))] + Read(args[2..])
    else [Other(args[0])] + Read(args[1..])
  }

  function WriteItem(item: Item): seq<string> {
    match item
    case LegacyFlag => [LEGACY_SKIP]
    case ModeFlag(None) => [PERMISSION_MODE]
    case ModeFlag(Some(value)) => [PERMISSION_MODE, value]
    case Other(arg) => [arg]
  }

  function Write(items: seq<Item>): seq<string> {
    if items == [] then [] else WriteItem(items[0]) + Write(items[1..])
  }

  predicate SetsMode(item: Item) {
    item.ModeFlag? || (item.Other? && IsModeAssignment(item.arg))
  }

  predicate AnySetsMode(items: seq<Item>) {
    exists i :: 0 <= i < |items| && SetsMode(items[i])
  }

  function WithoutLegacy(items: seq<Item>): seq<Item> {
    if items == [] then []
    else (if items[0].LegacyFlag? then [] else [items[0]]) + WithoutLegacy(items[1..])
  }

  /** Legacy flags go; if one was there and nothing sets a mode, the bypass mode is appended. */
  function Rewrite(items: seq<Item>): seq<Item> {
    WithoutLegacy(items) +
    if LegacyFlag in items && !AnySetsMode(items) then [ModeFlag(Some(BYPASS_MODE))] else []
  }

  // ---------------------------------------------------------------- the loop

  method NormalizeClaudePermissionArgs(args: Option<seq<string>>) returns (r: Option<seq<string>>)
    ensures r == if args.None? then None else Some(Write(Rewrite(Read(args.value))))
  {
    if args.None? {
      return None;
    }
    var normalized := NormalizeList(args.value);
    return Some(normalized);
  }

  /** How far the loop has come: what it has pushed and seen, and the items it has read. */
  ghost predicate Progress(args: seq<string>, i: nat, read: seq<Item>, normalized: seq<string>, sawLegacySkip: bool,
                           hasPermissionMode: bool)
    requires i <= |args|
  {
    && Read(args) == read + Read(args[i..])
    && normalized == Write(WithoutLegacy(read))
    && (sawLegacySkip <==> LegacyFlag in read)
    && (hasPermissionMode <==> AnySetsMode(read))
  }

  lemma {:induction false} WriteConcat(a: seq<Item>, b: seq<Item>)
    ensures Write(a + b) == Write(a) + Write(b)
  {
    if a == [] {
      assert a + b == b;
    } else {
      assert (a + b)[1..] == a[1..] + b;
      WriteConcat(a[1..], b);
    }
  }

  lemma {:induction false} WithoutLegacyConcat(a: seq<Item>, b: seq<Item>)
    ensures WithoutLegacy(a + b) == WithoutLegacy(a) + WithoutLegacy(b)
  {
    if a == [] {
      assert a + b == b;
    } else {
      assert (a + b)[1..] == a[1..] + b;
      WithoutLegacyConcat(a[1..], b);
    }
  }

  lemma WriteOne(item: Item)
    ensures Write([item]) == WriteItem(item)
    ensures Write(WithoutLegacy([item])) == if item.LegacyFlag? then [] else WriteItem(item)
  {
  }

  lemma AnySetsModeSnoc(items: seq<Item>, item: Item)
    ensures AnySetsMode(items + [item]) <==> AnySetsMode(items) || SetsMode(item)
  {
    if AnySetsMode(items) {
      var i :| 0 <= i < |items| && SetsMode(items[i]);
      assert (items + [item])[i] == items[i];
    }
    assert (items + [item])[|items|] == item;
  }

  /** The item that starts at token `from`, and how many tokens it takes. */
  function ItemAt(args: seq<string>, from: nat): Item
    requires from < |args|
  {
    if args[from] == LEGACY_SKIP then LegacyFlag
    else if args[from] == PERMISSION_MODE then
      ModeFlag(if from + 1 < |args| then Some(args[from + 1]) else None)
    else Other(args[from])
  }

  function Width(args: seq<string>, from: nat): nat
    requires from < |args|
  {
    if args[from] == PERMISSION_MODE && from + 1 < |args| then 2 else 1
  }

  lemma FlagsDiffer()
    ensures LEGACY_SKIP != PERMISSION_MODE && !IsModeAssignment(LEGACY_SKIP)
    ensures PERMISSION_MODE + "=" == "--permission-mode="
  {
    var assignment := PERMISSION_MODE + "=";
    assert assignment == "--permission-mode=";
    assert |LEGACY_SKIP| != |PERMISSION_MODE|;
    assert LEGACY_SKIP[2] == 'd' && assignment[2] == 'p';
  }

  lemma ReadItem(args: seq<string>, from: nat)
    requires from < |args|
    ensures Read(args[from..]) == [ItemAt(args, from)] + Read(args[from + Width(args, from)..])
  {
  }

  /** Reading one more item advances everything in step. */
  lemma ProgressStep(args: seq<string>, i: nat, read: seq<Item>, normalized: seq<string>, sawLegacySkip: bool,
                     hasPermissionMode: bool)
    requires i < |args| && Progress(args, i, read, normalized, sawLegacySkip, hasPermissionMode)
    ensures i + Width(args, i) <= |args|
    ensures var item := ItemAt(args, i);
            Progress(args, i + Width(args, i), read + [item],
                     normalized + if item.LegacyFlag? then [] else WriteItem(item),
                     sawLegacySkip || item.LegacyFlag?, hasPermissionMode || SetsMode(item))
  {
    var item, rest := ItemAt(args, i), Read(args[i + Width(args, i)..]);
    ReadItem(args, i);
    assert read + ([item] + rest) == read + [item] + rest;
    WriteSnoc(read, item);
    AnySetsModeSnoc(read, item);
    assert LegacyFlag in read + [item] <==> LegacyFlag in read || item == LegacyFlag;
  }

  lemma WriteSnoc(read: seq<Item>, item: Item)
    ensures Write(WithoutLegacy(read + [item])) ==
            Write(WithoutLegacy(read)) + if item.LegacyFlag? then [] else WriteItem(item)
  {
    WithoutLegacyConcat(read, [item]);
    WriteConcat(WithoutLegacy(read), WithoutLegacy([item]));
    WriteOne(item);
  }

  method NormalizeList(args: seq<string>) returns (normalized: seq<string>)
    ensures normalized == Write(Rewrite(Read(args)))
  {
    normalized := [];
    var sawLegacySkip := false;
    var hasPermissionMode := false;
    ghost var read: seq<Item> := [];
    assert args[0..] == args;
    var i: nat := 0;
    while i < |args|
      invariant i <= |args| && Progress(args, i, read, normalized, sawLegacySkip, hasPermissionMode)
      decreases |args| - i
    {
      var arg := args[i];
      FlagsDiffer();
      ProgressStep(args, i, read, normalized, sawLegacySkip, hasPermissionMode);
      read := read + [ItemAt(args, i)];
      if arg == LEGACY_SKIP {
        sawLegacySkip := true;
        assert normalized + [] == normalized;
        i := i + 1;
        continue;
      }
      if arg == PERMISSION_MODE {
        hasPermissionMode := true;
        if i + 1 < |args| {
          normalized := normalized + [arg, args[i + 1]];
          i := i + 2;
        } else {
          normalized := normalized + [arg];
          i := i + 1;
        }
        continue;
      }
      if IsModeAssignment(arg) {
        hasPermissionMode := true;
      }
      normalized := normalized + [arg];
      i := i + 1;
    }
    assert args[i..] == [] && read + [] == read;
    if sawLegacySkip && !hasPermissionMode {
      WriteConcat(WithoutLegacy(read), [ModeFlag(Some(BYPASS_MODE))]);
      WriteOne(ModeFlag(Some(BYPASS_MODE)));
      normalized := normalized + [PERMISSION_MODE, BYPASS_MODE];
    } else {
      assert WithoutLegacy(read) + [] == WithoutLegacy(read);
    }
  }

  // ---------------------------------------------------------------- the laws

  /** Items that `Read` can have produced: only the last one can be a mode flag without a value. */
  predicate IsReadable(items: seq<Item>) {
    forall i | 0 <= i < |items| ::
      && (items[i] == ModeFlag(None) ==> i == |items| - 1)
      && (items[i].Other? ==> items[i].arg != LEGACY_SKIP && items[i].arg != PERMISSION_MODE)
  }

  lemma {:induction false} ReadIsReadable(args: seq<string>)
    ensures IsReadable(Read(args)) && Write(Read(args)) == args
    decreases |args|
  {
    if args != [] {
      if args[0] == PERMISSION_MODE && |args| > 1 {
        ReadIsReadable(args[2..]);
        ConsReadable(ModeFlag(Some(args[1])), Read(args[2..]));
        assert args == [args[0], args[1]] + args[2..];
      } else if args[0] == PERMISSION_MODE {
        WriteOne(ModeFlag(None));
        assert args == [args[0]];
      } else {
        ReadIsReadable(args[1..]);
        ConsReadable(if args[0] == LEGACY_SKIP then LegacyFlag else Other(args[0]), Read(args[1..]));
        assert args == [args[0]] + args[1..];
      }
    }
  }

  lemma ConsReadable(item: Item, items: seq<Item>)
    requires IsReadable(items) && item != ModeFlag(None)
    requires item.Other? ==> item.arg != LEGACY_SKIP && item.arg != PERMISSION_MODE
    ensures IsReadable([item] + items) && Write([item] + items) == WriteItem(item) + Write(items)
  {
  }

  lemma ReadWritten(item: Item, rest: seq<string>)
    requires item == ModeFlag(None) ==> rest == []
    requires item.Other? ==> item.arg != LEGACY_SKIP && item.arg != PERMISSION_MODE
    ensures Read(WriteItem(item) + rest) == [item] + Read(rest)
  {
    var text := WriteItem(item) + rest;
    FlagsDiffer();
    if item.ModeFlag? && item.value.Some? {
      assert text[2..] == rest;
    } else {
      assert text[1..] == rest;
    }
  }

  /** Reading what was written gives the items back: values stay values, whatever they say. */
  lemma {:induction false} ReadWrite(items: seq<Item>)
    requires IsReadable(items)
    ensures Read(Write(items)) == items
  {
    if items != [] {
      var rest := items[1..];
      assert forall i | 0 <= i < |rest| :: rest[i] == items[i + 1];
      ReadWrite(rest);
      ReadWritten(items[0], Write(rest));
      assert items == [items[0]] + rest;
    }
  }

  lemma {:induction false} WithoutLegacyMembers(items: seq<Item>, item: Item)
    ensures item in WithoutLegacy(items) <==> item in items && item != LegacyFlag
  {
    if items != [] {
      WithoutLegacyMembers(items[1..], item);
      assert item in items <==> item == items[0] || item in items[1..];
    }
  }

  lemma {:induction false} WithoutLegacyReadable(items: seq<Item>)
    requires IsReadable(items)
    ensures IsReadable(WithoutLegacy(items))
    ensures ModeFlag(None) in items && items != [] ==> WithoutLegacy(items) != []
  {
    if items != [] {
      var rest := items[1..];
      assert forall i | 0 <= i < |rest| :: rest[i] == items[i + 1];
      WithoutLegacyReadable(rest);
      if items[0] == ModeFlag(None) {
        assert rest == [] && WithoutLegacy(items) == [items[0]];
      } else if !items[0].LegacyFlag? {
        ConsReadable(items[0], WithoutLegacy(rest));
      }
    }
  }

  lemma RewriteReadable(items: seq<Item>)
    requires IsReadable(items)
    ensures IsReadable(Rewrite(items))
  {
    WithoutLegacyReadable(items);
    if LegacyFlag in items && !AnySetsMode(items) {
      assert forall k | 0 <= k < |items| :: !SetsMode(items[k]);
      forall i | 0 <= i < |WithoutLegacy(items)| ensures WithoutLegacy(items)[i] != ModeFlag(None) {
        WithoutLegacyMembers(items, WithoutLegacy(items)[i]);
        assert WithoutLegacy(items)[i] in items;
      }
    }
  }

  lemma {:induction false} NoLegacyLeft(items: seq<Item>)
    requires LegacyFlag !in items
    ensures Rewrite(items) == items
  {
    if items != [] {
      assert items == [items[0]] + items[1..];
      assert items[0] in items;
      NoLegacyLeft(items[1..]);
    }
  }

  /** The rewritten list reads as the rewritten items: no legacy flag is left outside a value position. */
  lemma RewrittenArgs(args: seq<string>)
    ensures Read(Write(Rewrite(Read(args)))) == Rewrite(Read(args))
    ensures LegacyFlag !in Rewrite(Read(args))
  {
    ReadIsReadable(args);
    RewriteReadable(Read(args));
    ReadWrite(Rewrite(Read(args)));
    WithoutLegacyMembers(Read(args), LegacyFlag);
  }

  /** Rewriting a rewritten list changes nothing. */
  lemma RewritingIsIdempotent(args: seq<string>)
    ensures var once := Write(Rewrite(Read(args))); Write(Rewrite(Read(once))) == once
  {
    RewrittenArgs(args);
    NoLegacyLeft(Rewrite(Read(args)));
  }

  /** Without a legacy flag in a flag position the list is returned as it is. */
  lemma NothingToRewrite(args: seq<string>)
    requires LegacyFlag !in Read(args)
    ensures Write(Rewrite(Read(args))) == args
  {
    ReadIsReadable(args);
    NoLegacyLeft(Read(args));
  }

  // ---------------------------------------------------------------- the rewriting, token by token

  /** Token `i` is the value of the mode flag before it. */
  predicate IsValue(args: seq<string>, i: nat)
    requires i < |args|
  {
    i > 0 && args[i - 1] == "--permission-mode" && !IsValue(args, i - 1)
  }

  predicate IsLegacyAt(args: seq<string>, i: nat)
    requires i < |args|
  {
    args[i] == "--dangerously-skip-permissions" && !IsValue(args, i)
  }

  predicate SetsModeAt(args: seq<string>, i: nat)
    requires i < |args|
  {
    (args[i] == "--permission-mode" || "--permission-mode=" <= args[i]) && !IsValue(args, i)
  }

  predicate AnyLegacy(args: seq<string>, from: nat) {
    exists i: nat :: from <= i < |args| && IsLegacyAt(args, i)
  }

  predicate AnyMode(args: seq<string>, from: nat) {
    exists i: nat :: from <= i < |args| && SetsModeAt(args, i)
  }

  /** The tokens from number `from` on that are no legacy flags, in order. */
  function Kept(args: seq<string>, from: nat): seq<string>
    requires from <= |args|
    decreases |args| - from
  {
    if from == |args| then []
    else (if IsLegacyAt(args, from) then [] else [args[from]]) + Kept(args, from + 1)
  }

  /** Reading on from a token that is no value. */
  ghost predicate ReadsOn(args: seq<string>, from: nat)
    requires from <= |args|
  {
    var items := Read(args[from..]);
    && Write(WithoutLegacy(items)) == Kept(args, from)
    && (LegacyFlag in items <==> AnyLegacy(args, from))
    && (AnySetsMode(items) <==> AnyMode(args, from))
  }

  /** Where the next item starts, no value is expected. */
  lemma NextIsNoValue(args: seq<string>, from: nat)
    requires from < |args| && !IsValue(args, from)
    ensures from + Width(args, from) < |args| ==> !IsValue(args, from + Width(args, from))
    ensures Width(args, from) == 2 ==> IsValue(args, from + 1)
  {
  }

  lemma KeptItem(args: seq<string>, from: nat)
    requires from < |args| && !IsValue(args, from)
    ensures var item := ItemAt(args, from);
            Kept(args, from) ==
            (if item.LegacyFlag? then [] else WriteItem(item)) + Kept(args, from + Width(args, from))
  {
    FlagsDiffer();
    if Width(args, from) == 2 {
      NextIsNoValue(args, from);
      assert Kept(args, from + 1) == [args[from + 1]] + Kept(args, from + 2);
    }
  }

  lemma FlagsOfItem(args: seq<string>, from: nat)
    requires from < |args| && !IsValue(args, from)
    ensures AnyLegacy(args, from) <==> ItemAt(args, from).LegacyFlag? || AnyLegacy(args, from + Width(args, from))
    ensures AnyMode(args, from) <==> SetsMode(ItemAt(args, from)) || AnyMode(args, from + Width(args, from))
  {
    FlagsDiffer();
    NextIsNoValue(args, from);
    assert ItemAt(args, from).LegacyFlag? <==> IsLegacyAt(args, from);
    assert SetsMode(ItemAt(args, from)) <==> SetsModeAt(args, from);
  }

  lemma FlagsOfItems(item: Item, items: seq<Item>)
    ensures LegacyFlag in [item] + items <==> item.LegacyFlag? || LegacyFlag in items
    ensures AnySetsMode([item] + items) <==> SetsMode(item) || AnySetsMode(items)
  {
    var all := [item] + items;
    assert all[0] == item && forall i | 0 <= i < |items| :: all[i + 1] == items[i];
    if AnySetsMode(items) {
      var i :| 0 <= i < |items| && SetsMode(items[i]);
      assert SetsMode(all[i + 1]);
    }
    if SetsMode(item) {
      assert SetsMode(all[0]);
    }
  }

  lemma WriteKept(item: Item, items: seq<Item>)
    ensures Write(WithoutLegacy([item] + items)) ==
            (if item.LegacyFlag? then [] else WriteItem(item)) + Write(WithoutLegacy(items))
  {
    var kept := WithoutLegacy(items);
    assert ([item] + items)[1..] == items;
    if item.LegacyFlag? {
      assert [] + kept == kept && [] + Write(kept) == Write(kept);
    } else {
      assert ([item] + kept)[1..] == kept;
      assert Write([item] + kept) == WriteItem(item) + Write(kept);
    }
  }

  lemma {:induction false} ReadByPosition(args: seq<string>, from: nat)
    requires from <= |args| && (from < |args| ==> !IsValue(args, from))
    ensures ReadsOn(args, from)
    decreases |args| - from
  {
    if from < |args| {
      var next := from + Width(args, from);
      NextIsNoValue(args, from);
      ReadByPosition(args, next);
      ReadItem(args, from);
      var item, rest := ItemAt(args, from), Read(args[next..]);
      KeptItem(args, from);
      FlagsOfItem(args, from);
      FlagsOfItems(item, rest);
      WriteKept(item, rest);
    }
  }

  /**
   * The rewritten list: every token but the legacy flags, values included, in order; and the bypass
   * mode at the end exactly when a legacy flag was there and no mode was set.
   */
  lemma RewritingByPosition(args: seq<string>)
    ensures Write(Rewrite(Read(args))) ==
            Kept(args, 0) +
            if AnyLegacy(args, 0) && !AnyMode(args, 0) then ["--permission-mode", "bypassPermissions"] else []
  {
    assert args[0..] == args;
    ReadByPosition(args, 0);
    var items := Read(args);
    var bypass := [ModeFlag(Some(BYPASS_MODE))];
    WriteConcat(WithoutLegacy(items), if LegacyFlag in items && !AnySetsMode(items) then bypass else []);
    assert bypass[1..] == [];
    assert Write(bypass) == [PERMISSION_MODE, BYPASS_MODE];
  }
}
