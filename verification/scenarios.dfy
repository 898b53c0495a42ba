/**
 * The two-round example of the connected-devices table: the first reply lists
 * a and b, the second lists b and c and then the sentinel; the table is
 * a, b, c, each once, in the order first seen.
 */
module Scenarios {
  import opened Text
  import opened Devices
  import opened Scanner
  import opened Reassembly

  const A: string := "1::a\n"
  const B: string := "1::b\n"
  const C: string := "1::c\n"
  const EndLine: string := "Last IPs\n"
  const FirstText: string := "1::a\n1::b\n"
  const SecondText: string := "1::b\n1::c\nLast IPs\n"

  /** How getline splits the two reply texts. */
  lemma ExampleLines()
    ensures Lines(FirstText) == [A, B]
    ensures Lines(SecondText) == [B, C, EndLine]
  {
    FirstTextLines();
    SecondTextLines();
  }

  /** The first reply holds the lines for a and b. */
  lemma FirstTextLines()
    ensures Lines(FirstText) == [A, B]
  {
    assert [A, B][1..] == [B];
    assert Concat([B]) == B;
    assert Concat([A, B]) == FirstText;
    assert IsLine(A) && IsLine(B) && Terminated(A);
    LinesConcat([A, B]);
  }

  /** The second reply holds the lines for b and c and the sentinel line. */
  lemma SecondTextLines()
    ensures Lines(SecondText) == [B, C, EndLine]
  {
    assert [B, C, EndLine][1..] == [C, EndLine];
    assert [C, EndLine][1..] == [EndLine];
    assert Concat([EndLine]) == EndLine;
    assert Concat([B, C, EndLine]) == SecondText;
    assert IsLine(B) && IsLine(C) && IsLine(EndLine) && Terminated(B) && Terminated(C);
    LinesConcat([B, C, EndLine]);
  }

  lemma ExampleSentinels()
    ensures !Contains(A, Sentinel) && !Contains(B, Sentinel) && !Contains(C, Sentinel)
    ensures Contains(EndLine, Sentinel)
  {
  }

  lemma ExampleRecords()
    ensures Records([A, B]) == [A, B]
    ensures Records([B, C, EndLine]) == [B, C]
  {
    assert [A, B][..1] == [A];
    assert Records([A]) == [A] by { assert [A][..0] == []; }
    assert [B, C, EndLine][..2] == [B, C];
    assert [B, C][..1] == [B];
    assert Records([B]) == [B] by { assert [B][..0] == []; }
  }

  lemma ExampleAdds()
    ensures AddAll([], [A, B]) == [A, B]
    ensures AddAll([A, B], [B, C]) == [A, B, C]
  {
    assert [A, B][..1] == [A];
    assert AddAll([], [A]) == [A] by { assert [A][..0] == []; }
    assert [B, C][..1] == [B];
    assert AddAll([A, B], [B]) == [A, B] by { assert [B][..0] == []; }
  }

  lemma ExampleFirstScan()
    ensures ScanText([], FirstText) == ScanResult([A, B], true)
  {
    ScanTextMeaning([], FirstText);
    ExampleLines();
    ExampleSentinels();
    ExampleRecords();
    ExampleAdds();
  }

  lemma ExampleSecondScan()
    ensures ScanText([A, B], SecondText) == ScanResult([A, B, C], false)
  {
    ScanTextMeaning([A, B], SecondText);
    ExampleLines();
    ExampleSentinels();
    ExampleRecords();
    ExampleAdds();
  }

  /** Two rounds, the second ending with the sentinel, give the table [a, b, c]. */
  lemma TwoRounds()
    ensures Reassemble([], [FirstText, SecondText]) == Complete([A, B, C], 2)
  {
    assert Reassemble([A, B], [SecondText]) == Complete([A, B, C], 1) by {
      ExampleSecondScan();
    }
    ExampleFirstScan();
    assert [FirstText, SecondText][1..] == [SecondText];
  }
}
