/**
  The name splitting inside `enumeratePci`: the domain number from a root entry
  `pci<DOMAIN>:<BUS>`, and bus, device and function from an entry
  `<DOMAIN>:<BUS>:<DEVICE>.<FUNCTION>`. Components stay text.
*/
module PciNames {
  import opened GoStrings
  import opened PciTypes

  /** Root entries considered at all: `strings.HasPrefix(name, "pci")`. */
  predicate IsDomainEntry(name: string) {
    HasPrefix(name, "pci")
  }

  /** The first part of a split is a prefix, ended by the separator or by the end of the text. */
  lemma JoinHead(parts: seq<string>, sep: char)
    requires |parts| >= 1
    ensures HasPrefix(Join(parts, sep), parts[0])
    ensures |Join(parts, sep)| == |parts[0]| || Join(parts, sep)[|parts[0]|] == sep
  {
    if |parts| > 1 {
      var s := Join(parts, sep);
      assert s == parts[0] + [sep] + Join(parts[1..], sep);
      assert s[..|parts[0]|] == parts[0];
    }
  }

  /** A text that is empty or starts with the separator has an empty first part. */
  lemma SplitHeadEmpty(t: string, sep: char)
    requires t == [] || t[0] == sep
    ensures Split(t, sep)[0] == []
  {
    if t != [] {
      SplitLeadingSep(t[1..], sep);
      assert [sep] + t[1..] == t;
    }
  }

  /**
    The domain number of a root entry: the text after `pci` up to the first `:`
    (or to the end when there is none).
  */
  function DomainId(name: string): (id: string)
    requires IsDomainEntry(name)
    ensures ':' !in id
    ensures HasPrefix(name, "pci" + id)
    ensures |name| == 3 + |id| || name[3 + |id|] == ':'
  {
    var rest := name[3..];
    var parts := Split(rest, ':');
    JoinHead(parts, ':');
    assert name == "pci" + rest;
    assert name[..3 + |parts[0]|] == "pci" + rest[..|parts[0]|];
    parts[0]
  }

  /** The converse: any `:`-free text placed after `pci` and ended by `:` or the end is the domain number. */
  lemma DomainIdOf(id: string, tail: string)
    requires ':' !in id
    requires tail == [] || tail[0] == ':'
    ensures IsDomainEntry("pci" + id + tail) && DomainId("pci" + id + tail) == id
  {
    var name := "pci" + id + tail;
    assert name[3..] == id + tail;
    assert name[..3] == "pci";
    SplitAfterHead(id, tail, ':');
    SplitHeadEmpty(tail, ':');
    assert id + [] == id;
  }

  /** `pci0000:00` names domain `0000`. */
  lemma DomainIdExample()
    ensures IsDomainEntry("pci0000:00") && DomainId("pci0000:00") == "0000"
  {
    assert "pci0000:00" == "pci" + "0000" + ":00";
    DomainIdOf("0000", ":00");
  }

  /**
    The shape the unchecked slicing in `enumeratePci` relies on: at least three
    `:`-separated parts, and a `.` in the third one.
  */
  predicate WellFormedFunctionEntry(name: string) {
    var parts := Split(name, ':');
    |parts| >= 3 && '.' in parts[2]
  }

  /**
    `name` reads `<head>:<bus>:<device>.<function>` followed by nothing, by a
    further `.`-part or by a further `:`-part, with `head` free of `:`.
  */
  predicate IsAddressOf(name: string, head: string, a: Address) {
    var p := head + [':'] + a.bus + [':'] + a.device + ['.'] + a.func;
    && ':' !in head
    && HasPrefix(name, p)
    && (|p| == |name| || name[|p|] == '.' || name[|p|] == ':')
  }

  /** The components carry no separator. */
  predicate SeparatorFree(a: Address) {
    ':' !in a.bus && ':' !in a.device && '.' !in a.device && ':' !in a.func && '.' !in a.func
  }

  /**
    Bus, device and function of a function entry: `strings.Split(name, ":")[1:]`
    gives the bus and the `.`-split of the next part gives device and function.
  */
  function ParseFunctionEntry(name: string): (a: Address)
    requires WellFormedFunctionEntry(name)
    ensures SeparatorFree(a)
    ensures exists head :: IsAddressOf(name, head, a)
  {
    var parts := Split(name, ':');
    var busEtc := parts[1..];
    var devFunc := Split(busEtc[1], '.');
    SplitMoreThanOne(busEtc[1], '.');
    SplitPartsAvoid(busEtc[1], '.', ':');
    var a := Address(busEtc[0], devFunc[0], devFunc[1]);
    ParseFunctionEntryShape(name, parts, devFunc);
    a
  }

  /** Every part of a split avoids a character the whole text avoids. */
  lemma {:induction false} SplitPartsAvoid(s: string, sep: char, c: char)
    requires c !in s
    ensures forall k :: 0 <= k < |Split(s, sep)| ==> c !in Split(s, sep)[k]
    decreases |s|
  {
    if s != [] {
      SplitPartsAvoid(s[1..], sep, c);
      assert s == [s[0]] + s[1..];
    }
  }

  /** The first two parts and the separators after them, then the rest joined. */
  lemma JoinFirstTwo(parts: seq<string>, sep: char)
    requires |parts| >= 3
    ensures Join(parts, sep) == parts[0] + [sep] + parts[1] + [sep] + Join(parts[2..], sep)
  {
    assert parts[1..][1..] == parts[2..];
    assert parts[1..][0] == parts[1];
  }

  /** A text with a known first part: the part, then empty or separator-led rest. */
  lemma JoinHeadSplit(parts: seq<string>, sep: char) returns (tail: string)
    requires |parts| >= 1
    ensures Join(parts, sep) == parts[0] + tail
    ensures tail == [] || tail[0] == sep
  {
    JoinHead(parts, sep);
    var s := Join(parts, sep);
    tail := s[|parts[0]|..];
    assert s == s[..|parts[0]|] + tail;
  }

  /** Assembling IsAddressOf from the pieces of a name. */
  lemma AddressOfPieces(name: string, head: string, bus: string, third: string, tail: string,
                        device: string, func: string, rest: string)
    requires name == head + [':'] + bus + [':'] + third + tail && (tail == [] || tail[0] == ':')
    requires third == device + ['.'] + func + rest && (rest == [] || rest[0] == '.')
    requires ':' !in head
    ensures IsAddressOf(name, head, Address(bus, device, func))
  {
    var p := head + [':'] + bus + [':'] + device + ['.'] + func;
    assert name == p + (rest + tail);
    assert name[..|p|] == p;
    assert |p| < |name| ==> name[|p|] == (rest + tail)[0];
  }

  /** The decomposition behind ParseFunctionEntry's second postcondition. */
  lemma ParseFunctionEntryShape(name: string, parts: seq<string>, devFunc: seq<string>)
    requires parts == Split(name, ':') && |parts| >= 3
    requires devFunc == Split(parts[2], '.') && |devFunc| >= 2
    ensures IsAddressOf(name, parts[0], Address(parts[1], devFunc[0], devFunc[1]))
  {
    var t1 := Join(parts[2..], ':');
    assert name == parts[0] + [':'] + parts[1] + [':'] + t1 by {
      JoinFirstTwo(parts, ':');
    }
    var t2 := JoinHeadSplit(parts[2..], ':');
    assert parts[2..][0] == parts[2];
    var t3 := Join(devFunc[1..], '.');
    assert parts[2] == devFunc[0] + ['.'] + t3 by {
      assert Join(devFunc, '.') == parts[2];
    }
    var t4 := JoinHeadSplit(devFunc[1..], '.');
    assert devFunc[1..][0] == devFunc[1];
    assert ':' !in parts[0];
    AddressOfPieces(name, parts[0], parts[1], parts[2], t2, devFunc[0], devFunc[1], t4);
  }

  /**
    The converse of ParseFunctionEntry: a name laid out as `IsAddressOf` says,
    with separator-free components, is well formed and parses to exactly those
    components, whatever the `head`.
  */
  lemma ParseFunctionEntryOf(name: string, head: string, a: Address)
    requires IsAddressOf(name, head, a) && SeparatorFree(a)
    ensures WellFormedFunctionEntry(name) && ParseFunctionEntry(name) == a
  {
    var third := FunctionEntryParts(name, head, a);
    var parts := Split(name, ':');
    assert parts[1] == a.bus && parts[2] == third;
    var devFunc := Split(third, '.');
    assert devFunc[0] == a.device && devFunc[1] == a.func;
  }

  /** The `:`-parts and the `.`-parts of a name laid out as IsAddressOf says. */
  lemma FunctionEntryParts(name: string, head: string, a: Address) returns (third: string)
    requires IsAddressOf(name, head, a) && SeparatorFree(a)
    ensures |Split(name, ':')| >= 3 && Split(name, ':')[..3] == [head, a.bus, third]
    ensures |Split(third, '.')| >= 2 && Split(third, '.')[..2] == [a.device, a.func]
    ensures '.' in third
  {
    var p := head + [':'] + a.bus + [':'] + a.device + ['.'] + a.func;
    var rest := name[|p|..];
    var third0 := a.device + ['.'] + a.func;
    assert name == head + [':'] + a.bus + [':'] + (third0 + rest) by {
      assert name == p + rest;
    }
    ColonParts(name, head, a.bus, third0, rest);
    var r0 := Split(rest, ':')[0];
    third := third0 + r0;
    DotParts(third, a.device, a.func, rest);
    assert third[|a.device|] == '.';
  }

  /** The first two `:`-parts and the start of the third. */
  lemma ColonParts(name: string, head: string, bus: string, third0: string, rest: string)
    requires name == head + [':'] + bus + [':'] + (third0 + rest)
    requires ':' !in head && ':' !in bus && ':' !in third0
    ensures |Split(name, ':')| >= 3
    ensures Split(name, ':')[..3] == [head, bus, third0 + Split(rest, ':')[0]]
  {
    assert name == head + [':'] + (bus + [':'] + (third0 + rest));
    SplitCons(head, bus + [':'] + (third0 + rest), ':');
    SplitCons(bus, third0 + rest, ':');
    SplitAfterHead(third0, rest, ':');
  }

  /** The first two `.`-parts of the third `:`-part. */
  lemma DotParts(third: string, device: string, func: string, rest: string)
    requires third == device + ['.'] + func + Split(rest, ':')[0]
    requires rest == [] || rest[0] == ':' || rest[0] == '.'
    requires '.' !in device && '.' !in func
    ensures |Split(third, '.')| >= 2 && Split(third, '.')[..2] == [device, func]
  {
    var r0 := Split(rest, ':')[0];
    assert third == device + ['.'] + (func + r0);
    SplitCons(device, func + r0, '.');
    SplitAfterHead(func, r0, '.');
    RestHeadEmpty(rest);
    assert func + [] == func;
  }

  /** What follows the function number contributes nothing to its `.`-part. */
  lemma RestHeadEmpty(rest: string)
    requires rest == [] || rest[0] == ':' || rest[0] == '.'
    ensures Split(Split(rest, ':')[0], '.')[0] == []
  {
    var r0 := Split(rest, ':')[0];
    if rest == [] || rest[0] == ':' {
      SplitHeadEmpty(rest, ':');
      SplitHeadEmpty(r0, '.');
    } else {
      assert rest == [rest[0]] + rest[1..];
      assert r0 == ['.'] + Split(rest[1..], ':')[0];
      SplitHeadEmpty(r0, '.');
    }
  }

  /** `0000:00:1f.3` is bus `00`, device `1f`, function `3`. */
  lemma ParseFunctionEntryExample()
    ensures WellFormedFunctionEntry("0000:00:1f.3")
    ensures ParseFunctionEntry("0000:00:1f.3") == Address("00", "1f", "3")
  {
    var a := Address("00", "1f", "3");
    var p := "0000" + [':'] + a.bus + [':'] + a.device + ['.'] + a.func;
    assert p == "0000:00:1f.3";
    ParseFunctionEntryOf("0000:00:1f.3", "0000", a);
  }
}
