/**
 The text handling of `load` in ls8/cpu.py: each line is cut at its first `#`,
 stripped of surrounding whitespace, skipped when nothing is left, and otherwise
 read as a base-2 integer and stored at the next address, starting from 0.
 */
module Loader {
  import opened Wrappers

  /** The characters for which Python's `str.isspace()` holds: those `str.strip()` removes. */
  const Whitespace: set<char> := {
    ' ', '\t', '\n', '\r', '\U{000B}', '\U{000C}', '\U{001C}', '\U{001D}', '\U{001E}', '\U{001F}',
    '\U{0085}', '\U{00A0}', '\U{1680}', '\U{2000}', '\U{2001}', '\U{2002}', '\U{2003}', '\U{2004}',
    '\U{2005}', '\U{2006}', '\U{2007}', '\U{2008}', '\U{2009}', '\U{200A}', '\U{2028}', '\U{2029}',
    '\U{202F}', '\U{205F}', '\U{3000}'
  }

  predicate IsSpace(c: char) {
    c in Whitespace
  }

  /** How many whitespace characters `s.lstrip()` drops from the start of `s`. */
  function Indent(s: string): (n: nat)
    ensures n <= |s|
    ensures forall i :: 0 <= i < n ==> IsSpace(s[i])
    ensures n < |s| ==> !IsSpace(s[n])
  {
    if s != [] && IsSpace(s[0]) then 1 + Indent(s[1..]) else 0
  }

  /** How many whitespace characters `s.rstrip()` drops from the end of `s`. */
  function Outdent(s: string): (n: nat)
    ensures n <= |s|
    ensures forall i :: |s| - n <= i < |s| ==> IsSpace(s[i])
    ensures n < |s| ==> !IsSpace(s[|s| - 1 - n])
  {
    if s != [] && IsSpace(s[|s| - 1]) then 1 + Outdent(s[..|s| - 1]) else 0
  }

  /**
   `s.strip()`: `s.lstrip()`, then `rstrip()` of that. Together with the contract
   of `Indent`, the result is the part of `s` between a whitespace prefix and a
   whitespace suffix, and it neither starts nor ends with whitespace.
   */
  function Strip(s: string): (r: string)
    ensures |r| <= |s| && Indent(s) + |r| <= |s|
    ensures forall k :: 0 <= k < |r| ==> r[k] == s[Indent(s) + k]
    ensures forall k :: Indent(s) + |r| <= k < |s| ==> IsSpace(s[k])
    ensures r == [] || (!IsSpace(r[0]) && !IsSpace(r[|r| - 1]))
  {
    var t := s[Indent(s)..];
    t[..|t| - Outdent(t)]
  }

  /** `line.split("#")[0]`: everything before the first `#`. */
  function BeforeComment(line: string): (r: string)
    ensures |r| <= |line| && forall i :: 0 <= i < |r| ==> r[i] == line[i] && r[i] != '#'
    ensures |r| < |line| ==> line[|r|] == '#'
  {
    if line == [] || line[0] == '#' then [] else [line[0]] + BeforeComment(line[1..])
  }

  /** The text of a line that `load` hands to `int(instruction, 2)`; empty for a blank or comment-only line. */
  function Instruction(line: string): (r: string)
    ensures |r| <= |line|
    ensures forall k :: 0 <= k < |r| ==> r[k] != '#'
    ensures r == [] || (!IsSpace(r[0]) && !IsSpace(r[|r| - 1]))
  {
    Strip(BeforeComment(line))
  }

  /** A string of whitespace strips to nothing. */
  lemma StripBlank(s: string)
    requires forall k :: 0 <= k < |s| ==> IsSpace(s[k])
    ensures Strip(s) == []
  {
  }

  /** `strip` keeps exactly the stretch from the first to the last character that is not whitespace. */
  lemma StripBetween(s: string, i: nat, j: nat)
    requires i < j <= |s|
    requires forall k :: 0 <= k < i ==> IsSpace(s[k])
    requires forall k :: j <= k < |s| ==> IsSpace(s[k])
    requires !IsSpace(s[i]) && !IsSpace(s[j - 1])
    ensures Strip(s) == s[i..j]
  {
  }

  /** Whatever lies between a whitespace prefix and a whitespace suffix, and does not start or end with whitespace, is what `strip` keeps. */
  lemma StripOf(lead: string, r: string, trail: string)
    requires forall k :: 0 <= k < |lead| ==> IsSpace(lead[k])
    requires forall k :: 0 <= k < |trail| ==> IsSpace(trail[k])
    requires r == [] || (!IsSpace(r[0]) && !IsSpace(r[|r| - 1]))
    ensures Strip(lead + r + trail) == r
  {
    var s := lead + r + trail;
    var i, j := |lead|, |lead| + |r|;
    assert forall k :: 0 <= k < i ==> IsSpace(s[k]) by {
      forall k | 0 <= k < i ensures IsSpace(s[k]) { assert s[k] == lead[k]; }
    }
    assert forall k :: j <= k < |s| ==> IsSpace(s[k]) by {
      forall k | j <= k < |s| ensures IsSpace(s[k]) { assert s[k] == trail[k - j]; }
    }
    if r == [] {
      StripBlank(s);
    } else {
      assert s[i] == r[0] && s[j - 1] == r[|r| - 1];
      StripBetween(s, i, j);
      assert s[i..j] == r;
    }
  }

  /**
   A line is its leading whitespace, the instruction, trailing whitespace and an
   optional `#` comment: whatever text without `#` lies between the whitespace is
   the instruction.
   */
  lemma LineOf(lead: string, r: string, trail: string, comment: string)
    requires forall k :: 0 <= k < |lead| ==> IsSpace(lead[k])
    requires forall k :: 0 <= k < |trail| ==> IsSpace(trail[k])
    requires forall k :: 0 <= k < |r| ==> r[k] != '#'
    requires r == [] || (!IsSpace(r[0]) && !IsSpace(r[|r| - 1]))
    ensures Instruction(lead + r + trail) == r
    ensures Instruction(lead + r + trail + "#" + comment) == r
  {
    var p := lead + r + trail;
    assert forall k :: 0 <= k < |p| ==> p[k] != '#' by {
      forall k | 0 <= k < |p| ensures p[k] != '#' {
        if k < |lead| {
          assert p[k] == lead[k];
        } else if k < |lead| + |r| {
          assert p[k] == r[k - |lead|];
        } else {
          assert p[k] == trail[k - |lead| - |r|];
        }
      }
    }
    BeforeCommentOf(p, comment);
    StripOf(lead, r, trail);
  }

  predicate IsBinary(s: string) {
    forall i :: 0 <= i < |s| ==> s[i] == '0' || s[i] == '1'
  }

  predicate AllBinary(ins: seq<string>) {
    forall i :: 0 <= i < |ins| ==> IsBinary(ins[i])
  }

  /** The instruction text of every line of the file. */
  function Instructions(lines: seq<string>): (ins: seq<string>)
    ensures |ins| == |lines|
    ensures forall i :: 0 <= i < |lines| ==> ins[i] == Instruction(lines[i])
  {
    Map(Instruction, lines)
  }

  /** `f` applied to every element. */
  function Map<A, B>(f: A -> B, s: seq<A>): (r: seq<B>)
    ensures |r| == |s|
    ensures forall i :: 0 <= i < |s| ==> r[i] == f(s[i])
  {
    seq(|s|, i requires 0 <= i < |s| => f(s[i]))
  }

  lemma MapAppend<A, B>(f: A -> B, a: seq<A>, b: seq<A>)
    ensures Map(f, a + b) == Map(f, a) + Map(f, b)
  {
    var ma, mb, mab := Map(f, a), Map(f, b), Map(f, a + b);
    forall i | 0 <= i < |a + b| ensures mab[i] == (ma + mb)[i] {
      if i < |a| {
        assert (a + b)[i] == a[i];
      } else {
        assert (a + b)[i] == b[i - |a|];
      }
    }
  }

  /** Every line is blank, a comment, or binary digits with an optional comment. */
  predicate WellFormed(lines: seq<string>) {
    AllBinary(Instructions(lines))
  }

  function Pow2(n: nat): (p: nat)
    ensures p >= 1
  {
    if n == 0 then 1 else 2 * Pow2(n - 1)
  }

  function Digit(c: char): nat {
    if c == '1' then 1 else 0
  }

  /** `int(s, 2)` for a string of binary digits, most significant first. */
  function BinaryValue(s: string): (v: nat)
    requires IsBinary(s)
    ensures v < Pow2(|s|)
  {
    if s == [] then 0 else 2 * BinaryValue(s[..|s| - 1]) + Digit(s[|s| - 1])
  }

  /** Positional notation read from the left: the first of n digits weighs 2^(n-1). */
  function Weighted(s: string): nat {
    if s == [] then 0 else Digit(s[0]) * Pow2(|s| - 1) + Weighted(s[1..])
  }

  lemma {:induction false} WeightedSnoc(s: string, c: char)
    ensures Weighted(s + [c]) == 2 * Weighted(s) + Digit(c)
    decreases |s|
  {
    if s == [] {
      assert [] + [c] == [c] && [c][1..] == [];
    } else {
      assert (s + [c])[1..] == s[1..] + [c];
      WeightedSnoc(s[1..], c);
    }
  }

  /** `int(s, 2)` is positional notation with the most significant digit first. */
  lemma {:induction false} BinaryValueIsWeighted(s: string)
    requires IsBinary(s)
    ensures BinaryValue(s) == Weighted(s)
    decreases |s|
  {
    if s != [] {
      var init := s[..|s| - 1];
      BinaryValueIsWeighted(init);
      WeightedSnoc(init, s[|s| - 1]);
      assert init + [s[|s| - 1]] == s;
    }
  }

  /** The first of the digits weighs 2^(n-1); the rest are weighed as a string of their own. */
  lemma WeightedFirst(s: string, n: nat)
    requires |s| == n + 1
    ensures Weighted(s) == Digit(s[0]) * Pow2(n) + Weighted(s[1..])
  {
  }

  /** The value of eight binary digits, digit by digit. */
  lemma ByteValue(s: string)
    requires |s| == 8
    ensures Weighted(s) == 128 * Digit(s[0]) + 64 * Digit(s[1]) + 32 * Digit(s[2]) + 16 * Digit(s[3])
                              + 8 * Digit(s[4]) + 4 * Digit(s[5]) + 2 * Digit(s[6]) + Digit(s[7])
  {
    var t1 := s[1..];
    var t2 := t1[1..];
    var t3 := t2[1..];
    var t4 := t3[1..];
    var t5 := t4[1..];
    var t6 := t5[1..];
    var t7 := t6[1..];
    assert t1[0] == s[1] && t2[0] == s[2] && t3[0] == s[3] && t4[0] == s[4];
    assert t5[0] == s[5] && t6[0] == s[6] && t7[0] == s[7] && t7[1..] == [];
    assert Pow2(1) == 2 && Pow2(2) == 4 && Pow2(3) == 8 && Pow2(4) == 16;
    assert Pow2(5) == 32 && Pow2(6) == 64 && Pow2(7) == 128;
    WeightedFirst(s, 7);
    WeightedFirst(t1, 6);
    WeightedFirst(t2, 5);
    WeightedFirst(t3, 4);
    WeightedFirst(t4, 3);
    WeightedFirst(t5, 2);
    WeightedFirst(t6, 1);
    WeightedFirst(t7, 0);
  }

  /** The `width` low binary digits of `v`, most significant first, as a program file spells a byte. */
  function ToBinary(v: nat, width: nat): (s: string)
    ensures |s| == width && IsBinary(s)
  {
    if width == 0 then [] else ToBinary(v / 2, width - 1) + [if v % 2 == 1 then '1' else '0']
  }

  /** Spelling a value in enough digits and reading it back gives the value. */
  lemma {:induction false} BinaryRoundTrip(v: nat, width: nat)
    requires v < Pow2(width)
    ensures BinaryValue(ToBinary(v, width)) == v
  {
    if width > 0 {
      BinaryRoundTrip(v / 2, width - 1);
      var s := ToBinary(v, width);
      assert s[..|s| - 1] == ToBinary(v / 2, width - 1);
    }
  }

  /** Reading digits and spelling the value in as many digits gives the digits back. */
  lemma {:induction false} DigitsRoundTrip(s: string)
    requires IsBinary(s)
    ensures ToBinary(BinaryValue(s), |s|) == s
  {
    if s != [] {
      var init := s[..|s| - 1];
      DigitsRoundTrip(init);
      var v := BinaryValue(s);
      assert v / 2 == BinaryValue(init);
      assert s == init + [s[|s| - 1]];
    }
  }

  /** The values of the non-empty instruction texts, in order. */
  function Values(ins: seq<string>): (image: seq<nat>)
    requires AllBinary(ins)
    ensures |image| <= |ins|
  {
    if ins == [] then []
    else
      var init := ins[..|ins| - 1];
      assert AllBinary(init) by {
        forall i | 0 <= i < |init| ensures IsBinary(init[i]) {
          assert init[i] == ins[i];
        }
      }
      var last := ins[|ins| - 1];
      if last == "" then Values(init) else Values(init) + [BinaryValue(last)]
  }

  /** The values `load` stores, in address order: one per line that is not blank once the comment is cut off. */
  function Parse(lines: seq<string>): (image: seq<nat>)
    requires WellFormed(lines)
    ensures |image| <= |lines|
  {
    Values(Instructions(lines))
  }

  /** The positions of the non-empty instruction texts. */
  function Filled(ins: seq<string>): set<nat> {
    set i: nat | i < |ins| && ins[i] != ""
  }

  lemma {:induction false} ValuesCount(ins: seq<string>)
    requires AllBinary(ins)
    ensures |Values(ins)| == |Filled(ins)|
  {
    if ins != [] {
      var n := |ins| - 1;
      var init := ins[..n];
      assert AllBinary(init) by {
        forall i | 0 <= i < n ensures IsBinary(init[i]) { assert init[i] == ins[i]; }
      }
      ValuesCount(init);
      var extra: set<nat> := if ins[n] == "" then {} else {n};
      forall i: nat ensures i in Filled(ins) <==> i in Filled(init) + extra {
        if i < n {
          assert init[i] == ins[i];
        }
      }
      assert Filled(ins) == Filled(init) + extra;
      assert n !in Filled(init);
    }
  }

  /** The indices of the lines that hold an instruction. */
  function NonBlank(lines: seq<string>): set<nat> {
    set i: nat | i < |lines| && Instruction(lines[i]) != ""
  }

  /** A single line stores its value, or nothing when it is blank or only a comment. */
  lemma ParseLine(line: string)
    requires IsBinary(Instruction(line))
    ensures WellFormed([line])
    ensures Instruction(line) == "" ==> Parse([line]) == []
    ensures Instruction(line) != "" ==> Parse([line]) == [BinaryValue(Instruction(line))]
  {
  }

  /** One value is stored per non-blank line. */
  lemma ParseCount(lines: seq<string>)
    requires WellFormed(lines)
    ensures |Parse(lines)| == |NonBlank(lines)|
  {
    ValuesCount(Instructions(lines));
    assert Filled(Instructions(lines)) == NonBlank(lines);
  }

  lemma {:induction false} ValuesAppend(a: seq<string>, b: seq<string>)
    requires AllBinary(a) && AllBinary(b)
    ensures AllBinary(a + b)
    ensures Values(a + b) == Values(a) + Values(b)
    decreases |b|
  {
    assert AllBinary(a + b) by {
      forall i | 0 <= i < |a + b| ensures IsBinary((a + b)[i]) {
        if i >= |a| { assert (a + b)[i] == b[i - |a|]; }
      }
    }
    if b == [] {
      assert a + b == a;
    } else {
      var n := |b| - 1;
      assert AllBinary(b[..n]) by {
        forall i | 0 <= i < n ensures IsBinary(b[..n][i]) { assert b[..n][i] == b[i]; }
      }
      ValuesAppend(a, b[..n]);
      assert (a + b)[..|a + b| - 1] == a + b[..n];
    }
  }

  lemma SplitInstructions(a: seq<string>, b: seq<string>)
    ensures Instructions(a + b) == Instructions(a) + Instructions(b)
  {
    MapAppend(Instruction, a, b);
  }

  /** Parsing is line by line: the parse of two chunks of a file is the two parses one after the other. */
  lemma ParseAppend(a: seq<string>, b: seq<string>)
    requires WellFormed(a) && WellFormed(b)
    ensures WellFormed(a + b)
    ensures Parse(a + b) == Parse(a) + Parse(b)
  {
    SplitInstructions(a, b);
    ValuesAppend(Instructions(a), Instructions(b));
  }

  /** A line spelling a value in eight binary digits. */
  function ByteLine(v: nat): string {
    ToBinary(v, 8)
  }

  /** A program file for a memory image: one eight-digit line per byte. */
  function Render(image: seq<nat>): (lines: seq<string>)
    ensures |lines| == |image|
    ensures forall i :: 0 <= i < |image| ==> lines[i] == ByteLine(image[i])
  {
    Map(ByteLine, image)
  }

  /** A line of digits with no comment and no whitespace is its own instruction. */
  lemma DigitsAreInstruction(s: string)
    requires IsBinary(s)
    ensures Instruction(s) == s
  {
    var b := BeforeComment(s);
    assert b == s;
    if s != [] {
      assert !IsSpace(s[0]) && !IsSpace(s[|s| - 1]);
    }
  }

  /** The values of byte spellings are the bytes. */
  lemma {:induction false} ValuesOfBytes(image: seq<nat>)
    requires forall i :: 0 <= i < |image| ==> image[i] < 256
    ensures AllBinary(Render(image))
    ensures Values(Render(image)) == image
  {
    if image != [] {
      var n := |image| - 1;
      ValuesOfBytes(image[..n]);
      assert Render(image)[..n] == Render(image[..n]);
      assert Pow2(8) == 256;
      BinaryRoundTrip(image[n], 8);
    }
  }

  /** Everything before a `#` is kept, and a line without `#` is kept whole. */
  lemma {:induction false} BeforeCommentOf(p: string, rest: string)
    requires forall i :: 0 <= i < |p| ==> p[i] != '#'
    ensures BeforeComment(p) == p
    ensures BeforeComment(p + "#" + rest) == p
  {
    if p != [] {
      BeforeCommentOf(p[1..], rest);
      assert (p + "#" + rest)[1..] == p[1..] + "#" + rest;
    }
  }

  /** A byte spelt in binary digits, followed by a comment: the instruction is the digits. */
  lemma CommentedLine(digits: string, comment: string)
    requires IsBinary(digits) && digits != []
    ensures Instruction(digits + " #" + comment) == digits
  {
    assert digits + " #" + comment == [] + digits + " " + "#" + comment;
    LineOf([], digits, " ", comment);
  }

  /** Loading the file written for an image of bytes reproduces the image. */
  lemma ParseRender(image: seq<nat>)
    requires forall i :: 0 <= i < |image| ==> image[i] < 256
    ensures WellFormed(Render(image))
    ensures Parse(Render(image)) == image
  {
    var lines := Render(image);
    forall i | 0 <= i < |lines| ensures Instruction(lines[i]) == lines[i] {
      DigitsAreInstruction(lines[i]);
    }
    assert Instructions(lines) == lines;
    ValuesOfBytes(image);
  }

  /** A line with only whitespace, or whitespace and then a comment, holds no instruction. */
  lemma BlankLine(ws: string, comment: string)
    requires forall i :: 0 <= i < |ws| ==> IsSpace(ws[i])
    ensures Instruction(ws) == ""
    ensures Instruction(ws + "#" + comment) == ""
  {
    assert ws == ws + [] + [];
    LineOf(ws, [], [], comment);
  }

  /** A blank or comment-only line stores nothing, wherever it stands in the file. */
  lemma ParseSkipsBlank(a: seq<string>, blank: string, b: seq<string>)
    requires WellFormed(a) && WellFormed(b) && Instruction(blank) == ""
    ensures WellFormed(a + [blank] + b)
    ensures Parse(a + [blank] + b) == Parse(a) + Parse(b)
  {
    var ia, ib := Instructions(a), Instructions(b);
    assert Instructions([blank]) == [""];
    SplitInstructions(a, [blank]);
    SplitInstructions(a + [blank], b);
    assert Values([""]) == [];
    ValuesAppend(ia, [""]);
    ValuesAppend(ia + [""], ib);
  }

  /** A program file with a comment after every byte: `<eight digits> #<comment>` per line. */
  function Annotated(image: seq<nat>, comments: seq<string>): (lines: seq<string>)
    requires |comments| == |image|
    ensures |lines| == |image|
  {
    seq(|image|, i requires 0 <= i < |image| => ByteLine(image[i]) + " #" + comments[i])
  }

  /** Comments after the digits change nothing: the annotated file loads as the image too. */
  lemma ParseAnnotated(image: seq<nat>, comments: seq<string>)
    requires forall i :: 0 <= i < |image| ==> image[i] < 256
    requires |comments| == |image|
    ensures WellFormed(Annotated(image, comments))
    ensures Parse(Annotated(image, comments)) == image
  {
    var lines := Annotated(image, comments);
    forall i | 0 <= i < |lines| ensures Instruction(lines[i]) == Render(image)[i] {
      CommentedLine(ByteLine(image[i]), comments[i]);
    }
    assert Instructions(lines) == Render(image);
    ValuesOfBytes(image);
  }

  /**
   Storing `image` into `ram` from address 0 on, as `load` does; the store past
   the end of `ram` raises IndexError.
   */
  function Stored(ram: seq<int>, image: seq<nat>): (r: Result<seq<int>>)
    ensures r.Ok? <==> |image| <= |ram|
    ensures r.Err? ==> r.fault == IndexError
    ensures r.Ok? ==> |r.value| == |ram|
    ensures r.Ok? ==> forall a :: 0 <= a < |image| ==> r.value[a] == image[a]
    ensures r.Ok? ==> forall a :: |image| <= a < |ram| ==> r.value[a] == ram[a]
  {
    if |image| <= |ram| then Ok(image + ram[|image|..]) else Err(IndexError)
  }

  /** `load`, over the lines of the program file. */
  method Load(ram: seq<int>, lines: seq<string>) returns (r: Result<seq<int>>)
    requires WellFormed(lines)
    ensures r == Stored(ram, Parse(lines))
  {
    r := StoreInstructions(ram, Instructions(lines));
  }

  /** The loop of `load`, once each line is cut down to its instruction text, with its running address. */
  method StoreInstructions(ram: seq<int>, ins: seq<string>) returns (r: Result<seq<int>>)
    requires AllBinary(ins)
    ensures r == Stored(ram, Values(ins))
  {
    var mem := ram;
    var address := 0;
    var i := 0;
    assert ins[..0] == [];
    assert [] + ram[0..] == ram;
    while i < |ins|
      invariant 0 <= i <= |ins|
      invariant AllBinary(ins[..i])
      invariant address == |Values(ins[..i])| <= |ram|
      invariant Stored(ram, Values(ins[..i])) == Ok(mem)
    {
      ValuesPrefix(ins, i + 1);
      var instruction := ins[i];
      if instruction != "" {
        if address >= |mem| {
          ValuesMonotone(ins, i + 1);
          return Err(IndexError);
        }
        StoreNext(ram, Values(ins[..i]), BinaryValue(instruction));
        assert Values(ins[..i + 1]) == Values(ins[..i]) + [BinaryValue(instruction)];
        mem := mem[address := BinaryValue(instruction)];
        address := address + 1;
      } else {
        assert Values(ins[..i + 1]) == Values(ins[..i]);
      }
      i := i + 1;
    }
    assert ins[..i] == ins;
    r := Ok(mem);
  }

  /** Storing one more value writes the next address of the memory stored so far. */
  lemma StoreNext(ram: seq<int>, image: seq<nat>, v: nat)
    requires |image| < |ram|
    ensures Stored(ram, image + [v]) == Ok(Stored(ram, image).value[|image| := v])
  {
    var n := |image|;
    assert (image + [v]) + ram[n + 1..] == (image + ram[n..])[n := v];
  }

  /** The values of one more instruction text extend the values of the texts before it. */
  lemma ValuesPrefix(ins: seq<string>, n: nat)
    requires AllBinary(ins) && 0 < n <= |ins|
    ensures AllBinary(ins[..n - 1]) && AllBinary(ins[..n])
    ensures Values(ins[..n]) ==
            Values(ins[..n - 1]) + (if ins[n - 1] == "" then [] else [BinaryValue(ins[n - 1])])
  {
    assert ins[..n][..n - 1] == ins[..n - 1];
  }

  /** No later line removes a value: a prefix's values are no more than all the values. */
  lemma ValuesMonotone(ins: seq<string>, n: nat)
    requires AllBinary(ins) && n <= |ins|
    ensures AllBinary(ins[..n])
    ensures |Values(ins[..n])| <= |Values(ins)|
  {
    ValuesAppend(ins[..n], ins[n..]);
    assert ins[..n] + ins[n..] == ins;
  }

  /** When no instruction text is empty, the k-th value stored is the value of the k-th text. */
  lemma {:induction false} ValuesOfDigits(ins: seq<string>)
    requires forall k :: 0 <= k < |ins| ==> IsBinary(ins[k]) && ins[k] != ""
    ensures AllBinary(ins)
    ensures |Values(ins)| == |ins|
    ensures forall k :: 0 <= k < |ins| ==> Values(ins)[k] == BinaryValue(ins[k])
    decreases |ins|
  {
    if ins != [] {
      var n := |ins| - 1;
      ValuesPrefix(ins, |ins|);
      assert ins[..|ins|] == ins;
      ValuesOfDigits(ins[..n]);
    }
  }
}
