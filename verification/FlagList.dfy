/** Comma-separated flag lists (lib/util/params.c). A flag value or mask is the set of its bits;
    a C string is an array with a zero character after the text. */
module FlagList {
  import opened Common

  /** struct flag_val */
  datatype Flag = Flag(name: string, bits: set<nat>)

  const NUL: char := '\0'

  // ---------------------------------------------------------------------------
  // Lists as text

  ghost function Bits(flags: seq<Flag>): set<nat> {
    if flags == [] then {} else flags[0].bits + Bits(flags[1..])
  }

  function Join(names: seq<string>): string {
    if names == [] then ""
    else if |names| == 1 then names[0]
    else names[0] + "," + Join(names[1..])
  }

  /** The first flag with this name. */
  ghost function Lookup(table: seq<Flag>, name: string): Option<Flag> {
    if table == [] then None
    else if table[0].name == name then Some(table[0])
    else Lookup(table[1..], name)
  }

  /** Where the first name ends. */
  ghost function NameEnd(text: string): (n: nat)
    ensures n <= |text| && (forall i | 0 <= i < n :: text[i] != ',') && (n < |text| ==> text[n] == ',')
  {
    if text == "" || text[0] == ',' then 0 else NameEnd(text[1..]) + 1
  }

  /** What a list of names stands for: all flags named, or nothing when a name is unknown. A list
      may end in a comma. */
  ghost function Meaning(table: seq<Flag>, text: string): Option<set<nat>>
    decreases |text|
  {
    if text == "" then Some({})
    else
      var n := NameEnd(text);
      var flag := Lookup(table, text[..n]);
      if flag.None? then None
      else if n == |text| then Some(flag.value.bits)
      else
        var rest := Meaning(table, text[n + 1..]);
        if rest.None? then None else Some(flag.value.bits + rest.value)
  }

  ghost predicate PlainName(name: string) {
    name != "" && ',' !in name && NUL !in name
  }

  lemma NameEndIs(text: string, n: nat)
    requires n <= |text| && (forall i | 0 <= i < n :: text[i] != ',') && (n < |text| ==> text[n] == ',')
    ensures NameEnd(text) == n
  {
    var m := NameEnd(text);
  }

  /** An accepted list means the union of the flags it names: for names joined with commas, each
      of them in the table. */
  lemma {:induction false} MeaningOfNames(table: seq<Flag>, flags: seq<Flag>)
    requires forall f | f in flags :: PlainName(f.name) && Lookup(table, f.name) == Some(f)
    ensures Meaning(table, Join(Names(flags))) == Some(Bits(flags))
  {
    if flags != [] {
      var name := flags[0].name;
      var text := Join(Names(flags));
      var rest := Join(Names(flags[1..]));
      assert flags[0] in flags;
      MeaningOfNames(table, flags[1..]);
      assert Names(flags)[1..] == Names(flags[1..]);
      if |flags| == 1 {
        assert text == name && text[..|name|] == name;
        NameEndIs(text, |name|);
        assert Bits(flags) == flags[0].bits + {} == flags[0].bits;
        assert Lookup(table, text[..|name|]) == Some(flags[0]);
      } else {
        assert text == name + "," + rest;
        assert text[..|name|] == name && text[|name| + 1..] == rest;
        NameEndIs(text, |name|);
      }
    }
  }

  function Names(flags: seq<Flag>): (names: seq<string>)
    ensures |names| == |flags|
  {
    if flags == [] then [] else [flags[0].name] + Names(flags[1..])
  }

  // ---------------------------------------------------------------------------
  // handle_flags()

  /** find_flag() */
  method FindFlag(table: seq<Flag>, name: string) returns (flag: Option<Flag>)
    ensures flag == Lookup(table, name)
  {
    var i := 0;
    while i < |table|
      invariant 0 <= i <= |table| && Lookup(table, name) == Lookup(table[i..], name)
    {
      if name == table[i].name {
        return Some(table[i]);
      }
      i := i + 1;
    }
    return None;
  }

  /** s holds a string of n characters. */
  ghost predicate Terminated(s: array<char>, start: nat, n: nat)
    reads s
  {
    start <= n < s.Length && s[n] == NUL && forall i | start <= i < n :: s[i] != NUL
  }

  /** strchr(s + start, ','), on a string that ends at n. */
  method FindComma(s: array<char>, start: nat, ghost n: nat) returns (c: Option<nat>, end: nat)
    requires Terminated(s, start, n)
    ensures end == start + NameEnd(s[start..n])
    ensures c == if end < n then Some(end) else None
  {
    end := start;
    while s[end] != NUL
      invariant start <= end <= n && forall i | start <= i < end :: s[i] != ','
      decreases n - end
    {
      if s[end] == ',' {
        NameEndIs(s[start..n], end - start);
        return Some(end), end;
      }
      end := end + 1;
    }
    NameEndIs(s[start..n], n - start);
    return None, end;
  }

  lemma MeaningStep(table: seq<Flag>, text: string, n: nat)
    requires text != "" && n == NameEnd(text)
    ensures Lookup(table, text[..n]).None? ==> Meaning(table, text).None?
    ensures Lookup(table, text[..n]).Some? && n == |text| ==>
              Meaning(table, text) == Some(Lookup(table, text[..n]).value.bits)
    ensures Lookup(table, text[..n]).Some? && n < |text| ==>
              Remaining(Meaning(table, text), Lookup(table, text[..n]).value.bits, Meaning(table, text[n + 1..]))
  {
  }

  /** The string at an offset is this text. */
  ghost predicate StringAt(s: array<char>, optarg: nat, n: nat, text: string)
    reads s
  {
    Terminated(s, optarg, n) && s[optarg..n] == text
  }

  lemma StringStarts(s: array<char>, optarg: nat, n: nat, text: string)
    requires StringAt(s, optarg, n, text)
    ensures optarg < s.Length && (s[optarg] == NUL <==> text == "") && |text| == n - optarg
  {
  }

  /** Cuts off the next name and looks it up. */
  method NextFlag(s: array<char>, optarg: nat, table: seq<Flag>, ghost n: nat, ghost text: string)
      returns (c: Option<nat>, flag: Option<Flag>)
    requires StringAt(s, optarg, n, text)
    modifies s
    ensures flag == Lookup(table, text[..NameEnd(text)])
    ensures c == if NameEnd(text) < |text| then Some(optarg + NameEnd(text)) else None
    ensures c.Some? ==> StringAt(s, c.value + 1, n, text[NameEnd(text) + 1..])
  {
    hide NameEnd, Lookup;
    var end;
    c, end := FindComma(s, optarg, n);
    if c.Some? {
      s[c.value] := NUL;
    }
    assert s[optarg..end] == text[..end - optarg];
    flag := FindFlag(table, s[optarg..end]);
    if c.Some? {
      assert s[end + 1..n] == text[end - optarg + 1..];
    }
  }

  /** handle_flags(): cuts the list into names in place; None is -EINVAL. */
  method HandleFlags(s: array<char>, table: seq<Flag>, ghost n: nat) returns (r: Option<set<nat>>)
    requires Terminated(s, 0, n)
    modifies s
    ensures r == Meaning(table, old(s[..n]))
  {
    hide Meaning, NameEnd, Lookup, Remaining, StringAt;
    ghost var rest := s[..n];
    ghost var whole := Meaning(table, rest);
    NothingRemains(table, rest);
    WholeString(s, n);
    StringStarts(s, 0, n, rest);
    var flagval: set<nat> := {};
    var optarg: nat := 0;
    while s[optarg] != NUL
      invariant optarg < s.Length && StringAt(s, optarg, n, rest)
      invariant Remaining(whole, flagval, Meaning(table, rest))
      decreases |rest|
    {
      StringStarts(s, optarg, n, rest);
      MeaningStep(table, rest, NameEnd(rest));
      var c, flag := NextFlag(s, optarg, table, n, rest);
      if flag.None? {
        RemainsNone(whole, flagval);
        return None;
      }
      ghost var before, here := flagval, rest;
      flagval := flagval + flag.value.bits;
      if c.None? {
        RemainsSome(whole, before, flag.value.bits);
        return Some(flagval);
      }
      rest := rest[NameEnd(rest) + 1..];
      RemainsStep(whole, before, Meaning(table, here), flag.value.bits, Meaning(table, rest));
      optarg := c.value + 1;
      StringStarts(s, optarg, n, rest);
    }
    StringStarts(s, optarg, n, rest);
    NothingRemains(table, "");
    RemainsNothing(whole, flagval);
    return Some(flagval);
  }

  lemma WholeString(s: array<char>, n: nat)
    requires Terminated(s, 0, n)
    ensures StringAt(s, 0, n, s[..n])
  {
  }

  lemma NothingRemains(table: seq<Flag>, text: string)
    ensures Remaining(Meaning(table, text), {}, Meaning(table, text))
    ensures Meaning(table, "") == Some({})
  {
    var m := Meaning(table, text);
    assert m.Some? ==> {} + m.value == m.value;
  }

  lemma RemainsNone(whole: Option<set<nat>>, sofar: set<nat>)
    requires Remaining(whole, sofar, None)
    ensures whole.None?
  {
  }

  lemma RemainsNothing(whole: Option<set<nat>>, sofar: set<nat>)
    requires Remaining(whole, sofar, Some({}))
    ensures whole == Some(sofar)
  {
    assert sofar + {} == sofar;
  }

  lemma RemainsSome(whole: Option<set<nat>>, sofar: set<nat>, rest: set<nat>)
    requires Remaining(whole, sofar, Some(rest))
    ensures whole == Some(sofar + rest)
  {
  }

  lemma RemainsStep(whole: Option<set<nat>>, sofar: set<nat>, mid: Option<set<nat>>, bits: set<nat>, rest: Option<set<nat>>)
    requires Remaining(whole, sofar, mid) && Remaining(mid, bits, rest)
    ensures Remaining(whole, sofar + bits, rest)
  {
    assert rest.Some? ==> sofar + (bits + rest.value) == sofar + bits + rest.value;
  }

  /** What is found so far, and what the rest of the list says, make up the whole. */
  ghost predicate Remaining(whole: Option<set<nat>>, sofar: set<nat>, rest: Option<set<nat>>) {
    if rest.None? then whole.None? else whole == Some(sofar + rest.value)
  }

  // ---------------------------------------------------------------------------
  // print_flags()

  /** The flags of the table that have a bit in the mask, in table order. */
  ghost function Selected(table: seq<Flag>, mask: set<nat>): seq<Flag> {
    if table == [] then []
    else
      var last := table[|table| - 1];
      var before := Selected(table[..|table| - 1], mask);
      if last.bits * mask == {} then before else before + [last]
  }

  ghost function Printed(table: seq<Flag>, mask: set<nat>): string {
    Join(Names(Selected(table, mask)))
  }

  lemma {:induction false} JoinAppend(flags: seq<Flag>, f: Flag)
    ensures Join(Names(flags + [f])) == if flags == [] then f.name else Join(Names(flags)) + "," + f.name
  {
    if flags == [] {
      assert flags + [f] == [f];
    } else {
      assert (flags + [f])[1..] == flags[1..] + [f];
      JoinAppend(flags[1..], f);
      assert Names(flags + [f])[1..] == Names(flags[1..] + [f]);
      assert Names(flags)[1..] == Names(flags[1..]);
    }
  }

  /** Earlier flags print a prefix of the list. */
  lemma {:induction false} PrintedGrows(table: seq<Flag>, mask: set<nat>, i: nat)
    requires i <= |table|
    ensures |Printed(table[..i], mask)| <= |Printed(table, mask)|
    decreases |table| - i
  {
    if i < |table| {
      PrintedGrows(table, mask, i + 1);
      PrintedNext(table, mask, i);
    } else {
      assert table[..i] == table;
    }
  }

  lemma PrintedNext(table: seq<Flag>, mask: set<nat>, i: nat)
    requires i < |table|
    ensures Selected(table[..i + 1], mask) ==
            Selected(table[..i], mask) + if table[i].bits * mask == {} then [] else [table[i]]
    ensures Printed(table[..i + 1], mask) ==
            if table[i].bits * mask == {} then Printed(table[..i], mask)
            else if Selected(table[..i], mask) == [] then table[i].name
            else Printed(table[..i], mask) + "," + table[i].name
  {
    assert table[..i + 1][..i] == table[..i];
    JoinAppend(Selected(table[..i], mask), table[i]);
  }

  /** How many flags of the table are dealt with before a buffer of this size is full. */
  ghost function Fitting(table: seq<Flag>, mask: set<nat>, size: nat): (k: nat)
    ensures k <= |table| && (k > 0 ==> |Printed(table[..k], mask)| < size)
    ensures k < |table| ==> |Printed(table[..k + 1], mask)| >= size
  {
    assert table[..|table|] == table;
    if table == [] || |Printed(table, mask)| < size then |table|
    else
      var init := table[..|table| - 1];
      var k := Fitting(init, mask, size);
      assert init[..k] == table[..k] && (k < |init| ==> init[..k + 1] == table[..k + 1]);
      assert k == |init| ==> table[..k + 1] == table;
      k
  }

  /** The text left in a buffer of this size: the flags that fit, and a comma if there was another. */
  ghost function Shown(table: seq<Flag>, mask: set<nat>, size: nat): string {
    var k := Fitting(table, mask, size);
    Printed(table[..k], mask) + if k < |table| && Selected(table[..k], mask) != [] then "," else ""
  }

  lemma FittingIs(table: seq<Flag>, mask: set<nat>, size: nat, k: nat)
    requires k <= |table| && (k > 0 ==> |Printed(table[..k], mask)| < size)
    requires k < |table| ==> |Printed(table[..k + 1], mask)| >= size
    ensures Fitting(table, mask, size) == k
  {
    hide Printed;
    var l := Fitting(table, mask, size);
    if k < l {
      assert table[..l][..k + 1] == table[..k + 1];
      PrintedGrows(table[..l], mask, k + 1);
    } else if l < k {
      assert table[..k][..l + 1] == table[..l + 1];
      PrintedGrows(table[..k], mask, l + 1);
    }
  }

  /** The whole list is shown and terminated if and only if the buffer is longer than it. */
  lemma ShownIsWhole(table: seq<Flag>, mask: set<nat>, size: nat)
    ensures Shown(table, mask, size) == Printed(table, mask) && |Shown(table, mask, size)| < size <==>
            |Printed(table, mask)| < size
  {
    hide Printed, Selected;
    assert table[..|table|] == table;
    if |Printed(table, mask)| < size {
      FittingIs(table, mask, size, |table|);
    }
  }

  /** The next flag is selected and follows another one. */
  ghost predicate FollowsAt(table: seq<Flag>, mask: set<nat>, i: nat) {
    i < |table| && Selected(table[..i], mask) != [] && table[i].bits * mask != {}
  }

  /** There is room for the terminator unless the buffer is empty, or the flags up to some point
      leave room for one character and there is another flag. */
  lemma TerminatorFits(table: seq<Flag>, mask: set<nat>, size: nat)
    ensures |Shown(table, mask, size)| <= size
    ensures |Shown(table, mask, size)| < size <==>
            size > 0 && !exists i: nat :: FollowsAt(table, mask, i) && |Printed(table[..i], mask)| == size - 1
  {
    hide Printed, Selected;
    var k := Fitting(table, mask, size);
    NothingPrinted(table, mask);
    if k < |table| {
      PrintedNext(table, mask, k);
      assert size > 0 && |Shown(table, mask, size)| == size ==> FollowsAt(table, mask, k);
    }
    forall i: nat | FollowsAt(table, mask, i) && size > 0 && |Printed(table[..i], mask)| == size - 1
      ensures |Shown(table, mask, size)| == size
    {
      PrintedNext(table, mask, i);
      FittingIs(table, mask, size, i);
    }
  }

  /** Two flags and a buffer of two characters: the comma takes the last one. */
  lemma TerminatorBehindBuffer() returns (table: seq<Flag>, mask: set<nat>)
    ensures |Printed(table, mask)| == 3 && |Shown(table, mask, 2)| == 2
  {
    table, mask := [Flag("a", {0}), Flag("b", {1})], {0, 1};
    assert 0 in {0} * mask && 1 in {1} * mask;
    NothingPrinted(table, mask);
    PrintedNext(table, mask, 0);
    PrintedNext(table, mask, 1);
    assert table[..2] == table;
    assert FollowsAt(table, mask, 1);
    TerminatorFits(table, mask, 2);
  }

  lemma NothingPrinted(table: seq<Flag>, mask: set<nat>)
    ensures Selected(table[..0], mask) == [] && Printed(table[..0], mask) == ""
  {
  }

  /** snprintf(buf + at, buf_len, "%s", text) with the rest of the buffer as buf_len. */
  method Snprintf(buf: array<char>, at: nat, text: string) returns (len: nat)
    requires at <= buf.Length
    modifies buf
    ensures len == |text| && buf[..at] == old(buf[..at])
    ensures at + len < buf.Length ==> buf[..at + len] == old(buf[..at]) + text && buf[at + len] == NUL
    ensures at < buf.Length <= at + len ==>
              buf[at..buf.Length - 1] == text[..buf.Length - 1 - at] && buf[buf.Length - 1] == NUL
  {
    len := |text|;
    if at < buf.Length {
      var n := if at + len < buf.Length then len else buf.Length - 1 - at;
      forall i | 0 <= i < n {
        buf[at + i] := text[i];
      }
      buf[at + n] := NUL;
    }
  }

  /** Where the loop of print_flags() is. */
  ghost predicate PrintedSoFar(buf: array<char>, table: seq<Flag>, mask: set<nat>, i: nat, len: nat)
    reads buf
  {
    && i <= |table| && len == |Printed(table[..i], mask)| && len <= buf.Length && (i > 0 ==> len < buf.Length)
    && buf[..len] == Printed(table[..i], mask)
  }

  /** One selected flag: the comma before it and its name; `more` is false when that did not fit. */
  method PrintFlag(buf: array<char>, table: seq<Flag>, mask: set<nat>, i: nat, at: nat, first: bool)
      returns (len: nat, more: bool)
    requires i < |table| && table[i].bits * mask != {} && at < buf.Length && PrintedSoFar(buf, table, mask, i, at)
    requires first <==> Selected(table[..i], mask) == []
    modifies buf
    ensures more <==> |Printed(table[..i + 1], mask)| < buf.Length
    ensures more ==> PrintedSoFar(buf, table, mask, i + 1, len)
    ensures !more ==>
              && len == at + (if first then 0 else 1) <= buf.Length
              && buf[..len] == Printed(table[..i], mask) + if first then "" else ","
  {
    PrintedNext(table, mask, i);
    hide Printed, Selected;
    len := at;
    if !first {
      buf[len] := ',';
      len := len + 1;
    }
    var n := Snprintf(buf, len, table[i].name);
    more := len + n < buf.Length;
    if more {
      len := len + n;
    }
  }

  /** print_flags(), into a buffer of any length. `room` is false when the terminator would go behind
      the buffer. */
  method PrintFlags(buf: array<char>, table: seq<Flag>, mask: set<nat>) returns (len: nat, room: bool)
    modifies buf
    ensures len == |Shown(table, mask, buf.Length)| <= buf.Length && buf[..len] == Shown(table, mask, buf.Length)
    ensures room <==> len < buf.Length
    ensures room ==> buf[len] == NUL
  {
    hide Printed, Selected, Fitting;
    NothingPrinted(table, mask);
    var first := true;
    len := 0;
    var i := 0;
    var more := true;
    while len < buf.Length && i < |table| && more
      invariant more ==> PrintedSoFar(buf, table, mask, i, len) && (first <==> Selected(table[..i], mask) == [])
      invariant !more ==> len <= buf.Length && len == |Shown(table, mask, buf.Length)|
      invariant !more ==> buf[..len] == Shown(table, mask, buf.Length)
      invariant len <= buf.Length
      decreases |table| - i, more
    {
      PrintedNext(table, mask, i);
      if table[i].bits * mask == {} {
        i := i + 1;
      } else {
        len, more := PrintFlag(buf, table, mask, i, len, first);
        if more {
          first := false;
          i := i + 1;
        } else {
          FittingIs(table, mask, buf.Length, i);
        }
      }
    }
    if more {
      Finished(buf, table, mask, i, len);
    }
    room := len < buf.Length;
    if room {
      buf[len] := NUL;
    }
  }

  /** The loop ends at the end of the table, or did not begin. */
  lemma Finished(buf: array<char>, table: seq<Flag>, mask: set<nat>, i: nat, len: nat)
    requires PrintedSoFar(buf, table, mask, i, len) && (len == buf.Length || i == |table|)
    ensures len == |Shown(table, mask, buf.Length)| && buf[..len] == Shown(table, mask, buf.Length)
  {
    hide Printed, Selected, Fitting;
    NothingPrinted(table, mask);
    if i == |table| && (i > 0 || table == []) {
      FittingIs(table, mask, buf.Length, i);
    } else {
      EmptyBuffer(table, mask);
    }
  }

  lemma {:induction false} EmptyBuffer(table: seq<Flag>, mask: set<nat>)
    ensures Fitting(table, mask, 0) == 0 && Shown(table, mask, 0) == ""
  {
    NothingPrinted(table, mask);
  }

  // ---------------------------------------------------------------------------
  // There and back

  /** Distinct single-bit flags with distinct, non-empty names free of commas. */
  ghost predicate ProperTable(table: seq<Flag>) {
    && (forall f | f in table :: PlainName(f.name) && |f.bits| == 1)
    && (forall i, j | 0 <= i < j < |table| :: table[i].name != table[j].name && table[i].bits != table[j].bits)
  }

  lemma {:induction false} LookupFinds(table: seq<Flag>, i: nat)
    requires i < |table| && forall j, k | 0 <= j < k < |table| :: table[j].name != table[k].name
    ensures Lookup(table, table[i].name) == Some(table[i])
  {
    if i > 0 {
      LookupFinds(table[1..], i - 1);
    }
  }

  lemma {:induction false} SelectedMembers(table: seq<Flag>, mask: set<nat>)
    ensures forall f :: f in Selected(table, mask) <==> f in table && f.bits * mask != {}
  {
    if table != [] {
      SelectedMembers(table[..|table| - 1], mask);
      assert table == table[..|table| - 1] + [table[|table| - 1]];
    }
  }

  lemma {:induction false} BitsMembers(flags: seq<Flag>, b: nat)
    ensures b in Bits(flags) <==> exists f :: f in flags && b in f.bits
  {
    if flags != [] {
      BitsMembers(flags[1..], b);
      assert flags == [flags[0]] + flags[1..];
    }
  }

  lemma SingleBit(bits: set<nat>, b: nat, c: nat)
    requires |bits| == 1 && b in bits && c in bits
    ensures b == c
  {
    assert |bits - {b}| == 0;
    assert b != c ==> c in bits - {b};
  }

  lemma SelectedBits(table: seq<Flag>, mask: set<nat>)
    requires ProperTable(table) && forall b | b in mask :: exists f :: f in table && b in f.bits
    ensures Bits(Selected(table, mask)) == mask
  {
    SelectedMembers(table, mask);
    forall b: nat
      ensures b in Bits(Selected(table, mask)) <==> b in mask
    {
      BitsMembers(Selected(table, mask), b);
      if b in Bits(Selected(table, mask)) {
        var f :| f in Selected(table, mask) && b in f.bits;
        var c :| c in f.bits * mask;
        SingleBit(f.bits, b, c);
      }
      if b in mask {
        var f :| f in table && b in f.bits;
        assert b in f.bits * mask;
        assert f in Selected(table, mask);
      }
    }
  }

  /** Parsing the printed list gives the mask back. */
  lemma RoundTrip(table: seq<Flag>, mask: set<nat>)
    requires ProperTable(table) && forall b | b in mask :: exists f :: f in table && b in f.bits
    ensures Meaning(table, Printed(table, mask)) == Some(mask)
    ensures NUL !in Printed(table, mask)
  {
    var flags := Selected(table, mask);
    SelectedMembers(table, mask);
    forall f | f in flags
      ensures PlainName(f.name) && Lookup(table, f.name) == Some(f)
    {
      var i :| 0 <= i < |table| && table[i] == f;
      LookupFinds(table, i);
    }
    MeaningOfNames(table, flags);
    SelectedBits(table, mask);
    JoinHasNoNul(flags);
  }

  lemma {:induction false} JoinHasNoNul(flags: seq<Flag>)
    requires forall f | f in flags :: PlainName(f.name)
    ensures NUL !in Join(Names(flags))
  {
    if flags != [] {
      assert flags[0] in flags;
      JoinHasNoNul(flags[1..]);
      assert Names(flags)[1..] == Names(flags[1..]);
    }
  }

  /** print_flags() followed by handle_flags() on the same buffer. */
  method PrintThenHandle(buf: array<char>, table: seq<Flag>, mask: set<nat>) returns (r: Option<set<nat>>)
    requires ProperTable(table) && forall b | b in mask :: exists f :: f in table && b in f.bits
    requires |Printed(table, mask)| < buf.Length
    modifies buf
    ensures r == Some(mask)
  {
    RoundTrip(table, mask);
    ShownIsWhole(table, mask, buf.Length);
    hide Printed, Shown;
    var len, _ := PrintFlags(buf, table, mask);
    r := HandleFlags(buf, table, len);
  }
}
