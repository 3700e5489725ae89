// Octets, optional values, results, cost sums and big-endian integers shared by
// the other modules.
module Base {

  /** An octet. */
  type byte = b: int | 0 <= b < 256

  datatype Option<+T> = None | Some(value: T)

  datatype Result<+T, +E> = Ok(value: T) | Err(error: E)

  /** An extension or format identifier: 1 to 32 printable octets, no quote or backslash. */
  predicate ValidIdentifier(id: string) {
    && 1 <= |id| <= 32
    && forall i :: 0 <= i < |id| ==> 0x21 as char <= id[i] <= 0x7e as char && id[i] != '\"' && id[i] != '\\'
  }

  // ----- Checks in order -----

  /** A check with the error that its failure is reported as. */
  datatype Check<+E> = Check(passes: bool, error: E)

  /** The error of the first check, from position `i` on, that does not pass. */
  function FirstFailure<E>(checks: seq<Check<E>>, i: nat): Option<E>
    requires i <= |checks|
    decreases |checks| - i
  {
    if i == |checks| then None
    else if !checks[i].passes then Some(checks[i].error)
    else FirstFailure(checks, i + 1)
  }

  lemma {:induction false} NoFailure<E>(checks: seq<Check<E>>, i: nat)
    requires i <= |checks|
    ensures FirstFailure(checks, i).None? <==> forall k :: i <= k < |checks| ==> checks[k].passes
    decreases |checks| - i
  {
    if i < |checks| { NoFailure(checks, i + 1); }
  }

  /** The checks of two consecutive parts. */
  lemma {:induction false} FirstOfBoth<E>(a: seq<Check<E>>, b: seq<Check<E>>, i: nat)
    requires i <= |a|
    ensures FirstFailure(a + b, i) == if FirstFailure(a, i).Some? then FirstFailure(a, i) else FirstFailure(b, 0)
    decreases |a| - i
  {
    if i < |a| { FirstOfBoth(a, b, i + 1); } else { FirstOfRest(a, b, 0); }
  }

  lemma {:induction false} FirstOfRest<E>(a: seq<Check<E>>, b: seq<Check<E>>, i: nat)
    requires i <= |b|
    ensures FirstFailure(a + b, |a| + i) == FirstFailure(b, i)
    decreases |b| - i
  {
    if i < |b| {
      assert (a + b)[|a| + i] == b[i];
      FirstOfRest(a, b, i + 1);
    }
  }

  lemma NextCheck<E>(checks: seq<Check<E>>, i: nat)
    requires i <= |checks|
    ensures FirstFailure(checks, i) ==
              if i == |checks| then None
              else if !checks[i].passes then Some(checks[i].error) else FirstFailure(checks, i + 1)
  {}

  // ----- Work charged against a budget -----

  /** What a budget counts: tree nodes, or octets of text and data. */
  datatype Unit = Nodes | Octets

  function Charge(unit: Unit, nodes: nat, octets: nat): nat {
    if unit.Nodes? then nodes else octets
  }

  // ----- Big-endian integers -----

  function Pow256(width: nat): nat {
    if width == 0 then 1 else 256 * Pow256(width - 1)
  }

  /** The unsigned integer that a big-endian octet string denotes. */
  function ReadBE(octets: seq<byte>): nat {
    if octets == [] then 0
    else 256 * ReadBE(octets[..|octets| - 1]) + octets[|octets| - 1]
  }

  /** The low `width` octets of `n`, most significant first. */
  function PrintBE(n: nat, width: nat): (octets: seq<byte>)
    ensures |octets| == width
  {
    if width == 0 then [] else PrintBE(n / 256, width - 1) + [n % 256]
  }

  lemma {:induction false} PrintReadBE(octets: seq<byte>)
    ensures ReadBE(octets) < Pow256(|octets|)
    ensures PrintBE(ReadBE(octets), |octets|) == octets
  {
    if octets != [] {
      var front, last := octets[..|octets| - 1], octets[|octets| - 1];
      PrintReadBE(front);
      assert ReadBE(octets) / 256 == ReadBE(front) && ReadBE(octets) % 256 == last;
    }
  }

  lemma {:induction false} ReadPrintBE(n: nat, width: nat)
    requires n < Pow256(width)
    ensures ReadBE(PrintBE(n, width)) == n
  {
    if width != 0 {
      ReadPrintBE(n / 256, width - 1);
      assert PrintBE(n, width)[..width - 1] == PrintBE(n / 256, width - 1);
    }
  }

  lemma SmallPowers()
    ensures Pow256(1) == 0x100 && Pow256(2) == 0x1_0000 && Pow256(4) == 0x1_0000_0000
    ensures Pow256(8) == 0x1_0000_0000_0000_0000
  {
    assert Pow256(3) == 0x100_0000 && Pow256(5) == 0x100_0000_0000;
    assert Pow256(6) == 0x1_0000_0000_0000 && Pow256(7) == 0x100_0000_0000_0000;
  }

  /** Two octets, most significant first. */
  function Word(n: nat): seq<byte>
    requires n < 0x1_0000
  {
    [n / 0x100, n % 0x100]
  }

  function LongWord(n: nat): seq<byte>
    requires n < 0x1_0000_0000
  {
    [n / 0x100_0000, n / 0x1_0000 % 0x100, n / 0x100 % 0x100, n % 0x100]
  }

  lemma WordIsPrinted(n: nat)
    requires n < 0x1_0000
    ensures PrintBE(n, 2) == Word(n) && ReadBE(Word(n)) == n
  {
    assert PrintBE(n / 256, 1) == PrintBE(n / 256 / 256, 0) + [n / 256 % 256];
    assert PrintBE(n, 2) == PrintBE(n / 256, 1) + [n % 256];
    SmallPowers();
    ReadPrintBE(n, 2);
  }

  lemma LongWordIsPrinted(n: nat)
    requires n < 0x1_0000_0000
    ensures PrintBE(n, 4) == LongWord(n)
  {
    assert PrintBE(n, 4) == PrintBE(n / 256, 3) + [n % 256];
    assert PrintBE(n / 256, 3) == PrintBE(n / 256 / 256, 2) + [n / 256 % 256];
    WordIsPrinted(n / 256 / 256);
    assert n / 256 / 256 == n / 0x1_0000 && n / 0x1_0000 / 0x100 == n / 0x100_0000;
  }
}
