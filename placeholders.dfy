/** Clause text with positional parameters. Every fragment the builders emit is
    some text followed by a placeholder `$<n>`; a clause is such fragments joined
    by a separator. ParseSlots reads a clause back into its fragments, so that
    what a builder promises about its text can be stated as what the text
    decodes to. */
module Placeholders {
  import opened Wrappers
  import opened Decimal

  /** A fragment `<lead>$<index>`: the text before the placeholder, and its number. */
  datatype Slot = Slot(lead: string, index: nat)

  function RenderSlot(s: Slot): string {
    s.lead + "$" + NatToString(s.index)
  }

  function RenderAll(slots: seq<Slot>): (parts: seq<string>)
    ensures |parts| == |slots|
    ensures forall j :: 0 <= j < |slots| ==> parts[j] == RenderSlot(slots[j])
  {
    seq(|slots|, j requires 0 <= j < |slots| => RenderSlot(slots[j]))
  }

  /** Array.prototype.join: the parts with sep between neighbours; "" for no parts. */
  function Join(parts: seq<string>, sep: string): string {
    if |parts| == 0 then ""
    else if |parts| == 1 then parts[0]
    else parts[0] + sep + Join(parts[1..], sep)
  }

  /** The longest prefix of s that does not contain c. */
  function Span(s: string, c: char): (r: string)
    ensures r <= s && c !in r
    ensures |r| < |s| ==> s[|r|] == c
  {
    if s == [] || s[0] == c then [] else [s[0]] + Span(s[1..], c)
  }

  /** The longest prefix of s made of decimal digits. */
  function DigitRun(s: string): (r: string)
    ensures r <= s && AllDigits(r)
    ensures |r| < |s| ==> !IsDigit(s[|r|])
  {
    if s == [] || !IsDigit(s[0]) then [] else [s[0]] + DigitRun(s[1..])
  }

  /** Reads one fragment `<lead>$<digits>` off the front of s: the fragment, and
      the text after its digits. None when s has no '$', when no digit follows it,
      or when the digits have a leading zero (no placeholder is written that way). */
  function ParseOne(s: string): (r: Option<(Slot, string)>)
    ensures r.Some? ==> |r.value.1| < |s|
  {
    var lead := Span(s, '$');
    if |lead| == |s| then None
    else
      var digits := DigitRun(s[|lead| + 1..]);
      if digits == [] || (digits[0] == '0' && |digits| > 1) then None
      else Some((Slot(lead, ParseDigits(digits)), s[|lead| + 1 + |digits|..]))
  }

  /** Decodes a clause made of one or more fragments `<lead>$<digits>` joined by sep,
      where no lead contains '$'. */
  function ParseSlots(s: string, sep: string): Option<seq<Slot>>
    decreases |s|
  {
    match ParseOne(s)
    case None => None
    case Some((slot, rest)) =>
      if rest == [] then Some([slot])
      else if sep <= rest then
        match ParseSlots(rest[|sep|..], sep)
        case Some(more) => Some([slot] + more)
        case None => None
      else None
  }

  /** The placeholder numbers of a list of fragments, in order. */
  function Indices(slots: seq<Slot>): (ns: seq<nat>)
    ensures |ns| == |slots|
    ensures forall j :: 0 <= j < |slots| ==> ns[j] == slots[j].index
  {
    seq(|slots|, j requires 0 <= j < |slots| => slots[j].index)
  }

  /** The numbers 1..n in order: placeholders that are contiguous from $1. */
  predicate Contiguous(ns: seq<nat>) {
    forall j :: 0 <= j < |ns| ==> ns[j] == j + 1
  }

  lemma SpanOf(a: string, b: string, c: char)
    requires c !in a && |b| > 0 && b[0] == c
    ensures Span(a + b, c) == a
  {
    assert (a + b)[..|a|] == a;
  }

  lemma DigitRunOf(a: string, b: string)
    requires AllDigits(a) && (|b| == 0 || !IsDigit(b[0]))
    ensures DigitRun(a + b) == a
  {
    assert (a + b)[..|a|] == a;
  }

  /** A fragment `<lead>$<digits>` followed by text that does not start with a
      digit: ParseOne reads exactly that fragment and leaves the text. */
  lemma ParseOneOf(lead: string, digits: string, tail: string)
    requires '$' !in lead && Canonical(digits)
    requires |tail| == 0 || !IsDigit(tail[0])
    ensures ParseOne(lead + "$" + digits + tail) == Some((Slot(lead, ParseDigits(digits)), tail))
  {
    var after := digits + tail;
    var s := lead + "$" + digits + tail;
    assert s == lead + ("$" + after);
    SpanOf(lead, "$" + after, '$');
    assert s[|lead| + 1..] == after;
    DigitRunOf(digits, tail);
    assert after[|digits|..] == tail;
    assert s[|lead| + 1 + |digits|..] == tail;
  }

  /** One rendered fragment followed by text that does not start with a digit:
      the fragment is read back exactly, and the text after it is left over. */
  lemma ParseOneRendered(slot: Slot, tail: string)
    requires '$' !in slot.lead && (|tail| == 0 || !IsDigit(tail[0]))
    ensures ParseOne(RenderSlot(slot) + tail) == Some((slot, tail))
  {
    ParseOneOf(slot.lead, NatToString(slot.index), tail);
    ParseNatToString(slot.index);
  }

  /** A clause of one rendered fragment decodes to that fragment. */
  lemma ParseLast(slot: Slot, sep: string)
    requires '$' !in slot.lead
    ensures ParseSlots(RenderSlot(slot), sep) == Some([slot])
  {
    ParseOneRendered(slot, []);
    assert RenderSlot(slot) + [] == RenderSlot(slot);
  }

  /** A rendered fragment, the separator, and a clause that decodes: the whole
      decodes to the fragment followed by what the rest decodes to. */
  lemma ParseNext(slot: Slot, sep: string, more: string, tail: seq<Slot>)
    requires '$' !in slot.lead && |sep| > 0 && !IsDigit(sep[0])
    requires ParseSlots(more, sep) == Some(tail)
    ensures ParseSlots(RenderSlot(slot) + (sep + more), sep) == Some([slot] + tail)
  {
    ParseOneRendered(slot, sep + more);
    assert (sep + more)[|sep|..] == more;
  }

  /** Round trip: a clause rendered from fragments decodes to exactly those fragments,
      provided no lead contains '$' and the separator does not start with a digit. */
  lemma {:induction false} ParseRendered(slots: seq<Slot>, sep: string)
    requires |slots| > 0
    requires forall j :: 0 <= j < |slots| ==> '$' !in slots[j].lead
    requires |sep| > 0 && !IsDigit(sep[0])
    ensures ParseSlots(Join(RenderAll(slots), sep), sep) == Some(slots)
    decreases |slots|
  {
    var parts := RenderAll(slots);
    if |slots| == 1 {
      assert Join(parts, sep) == RenderSlot(slots[0]);
      ParseLast(slots[0], sep);
      assert slots == [slots[0]];
    } else {
      var more := Join(RenderAll(slots[1..]), sep);
      assert Join(parts, sep) == RenderSlot(slots[0]) + (sep + more) by {
        assert parts[1..] == RenderAll(slots[1..]);
      }
      ParseRendered(slots[1..], sep);
      ParseNext(slots[0], sep, more, slots[1..]);
      assert [slots[0]] + slots[1..] == slots;
    }
  }

  /** ParseOne only reads what could have been rendered: the text is the fragment's
      rendering followed by what is left over, which does not start with a digit. */
  lemma ParseOneInverse(s: string, slot: Slot, rest: string)
    requires ParseOne(s) == Some((slot, rest))
    ensures '$' !in slot.lead
    ensures rest == [] || !IsDigit(rest[0])
    ensures s == RenderSlot(slot) + rest
  {
    var lead := Span(s, '$');
    var after := s[|lead| + 1..];
    var digits := DigitRun(after);
    assert slot.lead == lead && slot.index == ParseDigits(digits) && rest == after[|digits|..];
    CanonicalNatToString(digits);
    SplitAt(s, lead, after, digits, rest);
  }

  /** s cut into its lead, the '$', the digits and what follows. */
  lemma SplitAt(s: string, lead: string, after: string, digits: string, rest: string)
    requires lead <= s && |lead| < |s| && s[|lead|] == '$' && after == s[|lead| + 1..]
    requires digits <= after && rest == after[|digits|..]
    ensures s == lead + "$" + digits + rest
  {
    assert after == digits + rest;
    assert s == lead + "$" + after;
  }

  /** Joining one more fragment in front of a non-empty list. */
  lemma JoinCons(slot: Slot, more: seq<Slot>, sep: string)
    requires |more| > 0
    ensures Join(RenderAll([slot] + more), sep) == RenderSlot(slot) + (sep + Join(RenderAll(more), sep))
  {
    assert RenderAll([slot] + more)[1..] == RenderAll(more);
  }

  /** One step of ParseSlots: the first fragment, then either the end of the clause
      or the separator and the clause after it. */
  lemma ParseSlotsStep(s: string, sep: string, slots: seq<Slot>, slot: Slot, rest: string)
    requires ParseSlots(s, sep) == Some(slots) && ParseOne(s) == Some((slot, rest))
    ensures rest == [] ==> slots == [slot]
    ensures rest != [] ==>
      && sep <= rest
      && ParseSlots(rest[|sep|..], sep).Some?
      && slots == [slot] + ParseSlots(rest[|sep|..], sep).value
  {
  }

  /** Converse round trip: a clause that decodes is exactly the rendering of the
      fragments it decodes to, so the fragments determine the text. */
  lemma {:induction false} RenderParsed(s: string, sep: string, slots: seq<Slot>)
    requires ParseSlots(s, sep) == Some(slots)
    ensures |slots| > 0
    ensures s == Join(RenderAll(slots), sep)
    decreases |s|
  {
    var (slot, rest) := ParseOne(s).value;
    ParseOneInverse(s, slot, rest);
    ParseSlotsStep(s, sep, slots, slot, rest);
    if rest == [] {
      RenderOne(s, sep, slot);
    } else {
      var tail := rest[|sep|..];
      var more := ParseSlots(tail, sep).value;
      RenderParsed(tail, sep, more);
      RenderCons(s, sep, slot, rest, tail, more);
    }
  }

  /** A clause of one fragment is that fragment's rendering. */
  lemma RenderOne(s: string, sep: string, slot: Slot)
    requires s == RenderSlot(slot) + []
    ensures s == Join(RenderAll([slot]), sep)
  {
    assert RenderAll([slot]) == [RenderSlot(slot)];
  }

  /** A fragment, the separator, and the rendering of more fragments render the
      longer list. */
  lemma RenderCons(s: string, sep: string, slot: Slot, rest: string, tail: string, more: seq<Slot>)
    requires s == RenderSlot(slot) + rest && sep <= rest && tail == rest[|sep|..]
    requires |more| > 0 && tail == Join(RenderAll(more), sep)
    ensures s == Join(RenderAll([slot] + more), sep)
  {
    JoinCons(slot, more, sep);
    assert rest == sep + tail;
  }
}
