/** Heading identifiers and percent escapes of the Markdown link gate. */
module Markdown {
  import opened Basics
  import opened Text
  import opened Utf8

  // ---------- heading identifiers ----------

  /** `format!("{base}-{count}")`. */
  function Suffixed(base: string, count: nat): string {
    base + ("-" + Decimal(count))
  }

  lemma SuffixesDiffer(base: string, a: nat, b: nat)
    requires a != b
    ensures Suffixed(base, a) != Suffixed(base, b)
  {
    if Suffixed(base, a) == Suffixed(base, b) {
      var n := |base| + 1;
      assert Suffixed(base, a)[n..] == Decimal(a) && Suffixed(base, b)[n..] == Decimal(b);
      DecimalInjective(a, b);
    }
  }

  lemma SuffixIsNew(base: string, count: nat)
    ensures Suffixed(base, count) != base
  {
    assert |Suffixed(base, count)| > |base|;
  }

  /** The identifier tried with this count: the bare slug first. */
  function Candidate(base: string, count: nat): string {
    if count == 0 then base else Suffixed(base, count)
  }

  lemma CandidatesDiffer(base: string, a: nat, b: nat)
    requires a != b
    ensures Candidate(base, a) != Candidate(base, b)
  {
    SuffixesDiffer(base, a, b);
    SuffixIsNew(base, a);
    SuffixIsNew(base, b);
  }

  ghost predicate Distinct(ids: seq<string>) {
    forall i, j :: 0 <= i < j < |ids| ==> ids[i] != ids[j]
  }

  /** The suffix search ends at the first count whose identifier is not taken:
      each one it passes is another member of a finite set. */
  method FirstFree(ids: set<string>, base: string, start: nat) returns (count: nat)
    ensures start <= count && Candidate(base, count) !in ids
    ensures forall k :: start <= k < count ==> Candidate(base, k) in ids
  {
    count := start;
    var id := Candidate(base, count);
    ghost var tried: set<string> := {};
    while id in ids
      invariant start <= count && id == Candidate(base, count)
      invariant forall k :: start <= k < count ==> Candidate(base, k) in tried
      invariant forall x :: x in tried ==> exists k :: start <= k < count && x == Candidate(base, k)
      invariant tried <= ids
      decreases |ids| - |tried|
    {
      if id in tried {
        var k :| start <= k < count && id == Candidate(base, k);
        CandidatesDiffer(base, k, count);
        assert false;
      }
      Subset(tried + {id}, ids);
      tried := tried + {id};
      count := count + 1;
      id := Suffixed(base, count);
    }
  }

  /** The identifiers of one rendered document. */
  class HeadingIds {
    var ids: set<string>
    var counts: map<string, nat>
    ghost var reserved: seq<string>

    ghost predicate Valid()
      reads this
    {
      Distinct(reserved) && ids == set id | id in reserved
    }

    constructor ()
      ensures Valid() && reserved == [] && ids == {} && counts == map[]
    {
      ids, counts, reserved := {}, map[], [];
    }

    function CountOf(base: string): nat
      reads this
    {
      if base in counts then counts[base] else 0
    }

    /** `reserve_heading_id`, from the heading's slug: the search for a free
        suffix ends, at the first count whose identifier is not taken yet, even
        when earlier headings spell such suffixes out. */
    method Reserve(base: string)
      requires Valid()
      modifies this
      ensures Valid()
      ensures base == "" ==> reserved == old(reserved) && ids == old(ids) && counts == old(counts)
      ensures base != "" ==>
                && counts.Keys == old(counts.Keys) + {base}
                && (forall other :: other in counts && other != base ==> counts[other] == old(CountOf(other)))
                && old(CountOf(base)) < counts[base]
                && var taken := counts[base] - 1;
                   && Candidate(base, taken) !in old(ids)
                   && (forall k :: old(CountOf(base)) <= k < taken ==> Candidate(base, k) in old(ids))
                   && ids == old(ids) + {Candidate(base, taken)}
                   && reserved == old(reserved) + [Candidate(base, taken)]
    {
      if base == "" {
        return;
      }
      var count := FirstFree(ids, base, CountOf(base));
      var id := Candidate(base, count);
      assert id !in reserved;
      counts := counts[base := count + 1];
      ids := ids + {id};
      reserved := reserved + [id];
    }
  }

  lemma Subset(a: set<string>, b: set<string>)
    requires a <= b
    ensures |a| <= |b|
  {
    assert b == a + (b - a);
  }

  /** Headings with something to slug. */
  function Slugged(slugs: seq<string>): nat {
    if slugs == [] then 0 else Slugged(slugs[..|slugs| - 1]) + if slugs[|slugs| - 1] == "" then 0 else 1
  }

  lemma {:induction false} DistinctCount(ids: seq<string>)
    requires Distinct(ids)
    ensures |set id | id in ids| == |ids|
  {
    if ids != [] {
      var earlier, last := ids[..|ids| - 1], ids[|ids| - 1];
      DistinctCount(earlier);
      assert last !in earlier;
      assert (set id | id in ids) == (set id | id in earlier) + {last};
    }
  }

  /** Over any headings, every heading with a slug gets an identifier of its own. */
  method ReserveAll(slugs: seq<string>) returns (heading: HeadingIds)
    ensures fresh(heading) && heading.Valid()
    ensures |heading.reserved| == Slugged(slugs) == |heading.ids|
  {
    heading := new HeadingIds();
    for i := 0 to |slugs|
      invariant fresh(heading) && heading.Valid() && |heading.reserved| == Slugged(slugs[..i])
    {
      assert slugs[..i + 1][..i] == slugs[..i];
      heading.Reserve(slugs[i]);
    }
    assert slugs[..|slugs|] == slugs;
    DistinctCount(heading.reserved);
  }

  // ---------- percent escapes ----------

  const PERCENT: Byte := 0x25

  datatype Fault = IncompleteEscape | InvalidEscape | NotUtf8

  function HexValue(byte: Byte): (v: Option<nat>)
    ensures v.Some? ==> v.value < 16
  {
    if 0x30 <= byte <= 0x39 then Some(byte - 0x30)
    else if 0x61 <= byte <= 0x66 then Some(byte - 0x61 + 10)
    else if 0x41 <= byte <= 0x46 then Some(byte - 0x41 + 10)
    else None
  }

  /** What the text spells from the front. */
  function Decoded(text: seq<Byte>): Result<seq<Byte>, Fault> {
    if text == [] then Success([])
    else if text[0] != PERCENT then Prepend(text[0], Decoded(text[1..]))
    else if |text| < 3 then Failure(IncompleteEscape)
    else if HexValue(text[1]).None? || HexValue(text[2]).None? then Failure(InvalidEscape)
    else Prepend(HexValue(text[1]).value * 16 + HexValue(text[2]).value, Decoded(text[3..]))
  }

  function Prepend(byte: Byte, rest: Result<seq<Byte>, Fault>): Result<seq<Byte>, Fault> {
    match rest
    case Failure(f) => Failure(f)
    case Success(bytes) => Success([byte] + bytes)
  }

  /** With `done` decoded and `rest` what the remaining text decodes to, `all` is what the whole decodes to. */
  ghost predicate GoesOn(all: Result<seq<Byte>, Fault>, done: seq<Byte>, rest: Result<seq<Byte>, Fault>) {
    match rest
    case Failure(f) => all == Failure(f)
    case Success(bytes) => all == Success(done + bytes)
  }

  lemma Continued(all: Result<seq<Byte>, Fault>, done: seq<Byte>, byte: Byte, rest: Result<seq<Byte>, Fault>)
    requires GoesOn(all, done, Prepend(byte, rest))
    ensures GoesOn(all, done + [byte], rest)
  {
    assert rest.Success? ==> done + ([byte] + rest.value) == (done + [byte]) + rest.value;
  }

  /** What a text decodes to: the text its decoded bytes are, if they are one. */
  function DecodedText(value: string): Result<string, Fault> {
    match Decoded(Bytes(value))
    case Failure(f) => Failure(f)
    case Success(bytes) =>
      match FromBytes(bytes)
      case None => Failure(NotUtf8)
      case Some(text) => Success(text)
  }

  /** `percent_decode`. */
  method PercentDecode(value: string) returns (r: Result<string, Fault>)
    ensures r == DecodedText(value)
  {
    var bytes := Bytes(value);
    var decoded: seq<Byte> := [];
    var index := 0;
    assert bytes[0..] == bytes;
    assert Decoded(bytes).Success? ==> decoded + Decoded(bytes).value == Decoded(bytes).value;
    while index < |bytes|
      invariant index <= |bytes| && GoesOn(Decoded(bytes), decoded, Decoded(bytes[index..]))
    {
      var rest := bytes[index..];
      if bytes[index] == PERCENT {
        if index + 2 >= |bytes| {
          return Failure(IncompleteEscape);
        }
        var high, low := HexValue(bytes[index + 1]), HexValue(bytes[index + 2]);
        if high.None? || low.None? {
          return Failure(InvalidEscape);
        }
        assert rest[3..] == bytes[index + 3..];
        Continued(Decoded(bytes), decoded, high.value * 16 + low.value, Decoded(bytes[index + 3..]));
        decoded := decoded + [high.value * 16 + low.value];
        index := index + 3;
      } else {
        assert rest[1..] == bytes[index + 1..];
        Continued(Decoded(bytes), decoded, bytes[index], Decoded(bytes[index + 1..]));
        decoded := decoded + [bytes[index]];
        index := index + 1;
      }
    }
    assert decoded + [] == decoded;
    var text := FromBytes(decoded);
    if text.None? {
      return Failure(NotUtf8);
    }
    return Success(text.value);
  }

  /** One way of writing a byte: itself, or an escape of two hex digits. */
  predicate Spells(spelling: seq<Byte>, byte: Byte) {
    || (spelling == [byte] && byte != PERCENT)
    || (&& |spelling| == 3 && spelling[0] == PERCENT
        && HexValue(spelling[1]).Some? && HexValue(spelling[2]).Some?
        && byte == HexValue(spelling[1]).value * 16 + HexValue(spelling[2]).value)
  }

  function Joined(spellings: seq<seq<Byte>>): seq<Byte> {
    if spellings == [] then [] else spellings[0] + Joined(spellings[1..])
  }

  /** Decoding undoes every escaping, whichever bytes it escapes and in whichever case. */
  lemma {:induction false} DecodingUndoesEscaping(bytes: seq<Byte>, spellings: seq<seq<Byte>>)
    requires |spellings| == |bytes| && forall i :: 0 <= i < |bytes| ==> Spells(spellings[i], bytes[i])
    ensures Decoded(Joined(spellings)) == Success(bytes)
  {
    if bytes != [] {
      DecodingUndoesEscaping(bytes[1..], spellings[1..]);
      var text := Joined(spellings);
      assert text[|spellings[0]|..] == Joined(spellings[1..]);
      assert bytes == [bytes[0]] + bytes[1..];
    }
  }

  /** The text cut where the decoder cuts it. */
  function Cut(text: seq<Byte>): seq<seq<Byte>> {
    if text == [] then []
    else if text[0] == PERCENT && |text| >= 3 then [text[..3]] + Cut(text[3..])
    else [text[..1]] + Cut(text[1..])
  }

  /** Whatever decodes was some escaping of the bytes it decodes to. */
  lemma {:induction false} DecodedIsAnEscaping(text: seq<Byte>)
    requires Decoded(text).Success?
    ensures Joined(Cut(text)) == text && |Cut(text)| == |Decoded(text).value|
    ensures forall i :: 0 <= i < |Cut(text)| ==> Spells(Cut(text)[i], Decoded(text).value[i])
    decreases |text|
  {
    if text != [] {
      var n := if text[0] == PERCENT then 3 else 1;
      DecodedIsAnEscaping(text[n..]);
      assert Cut(text)[1..] == Cut(text[n..]);
    }
  }

  ghost predicate IsEscaping(value: string, spellings: seq<seq<Byte>>, text: string) {
    && Joined(spellings) == Bytes(value) && |spellings| == |Bytes(text)|
    && forall i :: 0 <= i < |spellings| ==> Spells(spellings[i], Bytes(text)[i])
  }

  /** A text decodes to another exactly when it is that other one with some of its
      bytes escaped. */
  lemma DecodesExactly(value: string, text: string)
    ensures DecodedText(value) == Success(text) <==> exists spellings :: IsEscaping(value, spellings, text)
  {
    hide Decoded, FromBytes, Spells, Joined, Cut;
    var bytes := Bytes(value);
    if DecodedText(value) == Success(text) {
      DecodedIsAnEscaping(bytes);
      FromBytesExactly(Decoded(bytes).value, text);
      assert IsEscaping(value, Cut(bytes), text);
    }
    if spellings :| IsEscaping(value, spellings, text) {
      DecodingUndoesEscaping(Bytes(text), spellings);
      FromBytesExactly(Bytes(text), text);
    }
  }

  // ---------- link paths ----------

  datatype Component = Here | Name(name: string) | Parent | Absolute

  datatype PathFault = EscapesRepository | IsAbsolute

  /** Following the components one by one from a place below the repository root. */
  function Walk(place: seq<string>, components: seq<Component>): Result<seq<string>, PathFault>
    decreases |components|
  {
    if components == [] then Success(place)
    else
      match components[0]
      case Here => Walk(place, components[1..])
      case Name(name) => Walk(place + [name], components[1..])
      case Parent => if place == [] then Failure(EscapesRepository) else Walk(place[..|place| - 1], components[1..])
      case Absolute => Failure(IsAbsolute)
  }

  /** `lexical_join`: names are pushed, parents pop. */
  method LexicalJoin(base: seq<Component>, relative: seq<Component>) returns (r: Result<seq<string>, PathFault>)
    ensures r == Walk([], base + relative)
  {
    var components := base + relative;
    var normalized: seq<string> := [];
    for i := 0 to |components|
      invariant Walk(normalized, components[i..]) == Walk([], components)
    {
      assert components[i..][1..] == components[i + 1..];
      match components[i] {
        case Here =>
        case Name(name) => normalized := normalized + [name];
        case Parent =>
          if normalized == [] {
            return Failure(EscapesRepository);
          }
          normalized := normalized[..|normalized| - 1];
        case Absolute => return Failure(IsAbsolute);
      }
    }
    return Success(normalized);
  }

  function Step(component: Component): int {
    if component.Name? then 1 else if component.Parent? then -1 else 0
  }

  /** Names entered less parents left. */
  function Descent(components: seq<Component>): int {
    if components == [] then 0 else Step(components[0]) + Descent(components[1..])
  }

  /** No prefix leaves more places than there are to leave. */
  ghost predicate StaysInside(height: int, components: seq<Component>) {
    forall k :: 0 <= k <= |components| ==> height + Descent(components[..k]) >= 0
  }

  lemma InsideStepwise(height: int, components: seq<Component>)
    requires components != []
    ensures StaysInside(height, components) <==> height >= 0 && StaysInside(height + Step(components[0]), components[1..])
  {
    var others := components[1..];
    forall k | 0 <= k <= |others| ensures Descent(components[..k + 1]) == Step(components[0]) + Descent(others[..k]) {
      assert components[..k + 1][1..] == others[..k];
    }
    assert Descent(components[..0]) == 0;
    if height >= 0 && StaysInside(height + Step(components[0]), others) {
      forall k | 0 <= k <= |components| ensures height + Descent(components[..k]) >= 0 {
        if k > 0 {
          assert components[..k][1..] == others[..k - 1];
          assert height + Step(components[0]) + Descent(others[..k - 1]) >= 0;
        }
      }
    }
    if StaysInside(height, components) {
      forall k | 0 <= k <= |others| ensures height + Step(components[0]) + Descent(others[..k]) >= 0 {
        assert height + Descent(components[..k + 1]) >= 0;
      }
    }
  }

  /** Whether a walk arrives is decided by the components alone: it fails exactly
      at an absolute component or a prefix that leaves more than it entered. */
  lemma {:induction false} WalksExactlyInside(place: seq<string>, components: seq<Component>)
    ensures Walk(place, components).Success? <==> Absolute !in components && StaysInside(|place|, components)
    ensures Walk(place, components).Success? ==> |Walk(place, components).value| == |place| + Descent(components)
    decreases |components|
  {
    hide StaysInside;
    if components == [] {
      NothingLeavesNothing(|place|);
    } else {
      InsideStepwise(|place|, components);
      match components[0]
      case Here => WalksExactlyInside(place, components[1..]);
      case Name(name) => WalksExactlyInside(place + [name], components[1..]);
      case Parent =>
        if place == [] {
          BelowIsOutside(-1, components[1..]);
        } else {
          WalksExactlyInside(place[..|place| - 1], components[1..]);
        }
      case Absolute =>
    }
  }

  lemma NothingLeavesNothing(height: nat)
    ensures StaysInside(height, [])
  {
  }

  lemma BelowIsOutside(height: int, components: seq<Component>)
    requires height < 0
    ensures !StaysInside(height, components)
  {
    assert Descent(components[..0]) == 0;
  }

  lemma {:induction false} WalksInSequence(place: seq<string>, first: seq<Component>, second: seq<Component>)
    ensures Walk(place, first + second) ==
            match Walk(place, first)
            case Failure(fault) => Failure(fault)
            case Success(reached) => Walk(reached, second)
    decreases |first|
  {
    if first == [] {
      assert first + second == second;
    } else {
      assert (first + second)[1..] == first[1..] + second;
      match first[0]
      case Here => WalksInSequence(place, first[1..], second);
      case Name(name) => WalksInSequence(place + [name], first[1..], second);
      case Parent =>
        if place != [] {
          WalksInSequence(place[..|place| - 1], first[1..], second);
        }
      case Absolute =>
    }
  }

  /** Entering a place and leaving it again, or staying, changes no destination. */
  lemma DetoursChangeNothing(place: seq<string>, first: seq<Component>, name: string, second: seq<Component>)
    ensures Walk(place, first + ([Name(name), Parent] + second)) == Walk(place, first + second)
    ensures Walk(place, first + ([Here] + second)) == Walk(place, first + second)
  {
    WalksInSequence(place, first, [Name(name), Parent] + second);
    WalksInSequence(place, first, [Here] + second);
    WalksInSequence(place, first, second);
    if Walk(place, first).Success? {
      var reached := Walk(place, first).value;
      var detour := [Name(name), Parent] + second;
      assert detour[1..] == [Parent] + second && detour[1..][1..] == second;
      assert ([Here] + second)[1..] == second;
      assert (reached + [name])[..|reached + [name]| - 1] == reached;
    }
  }
}
