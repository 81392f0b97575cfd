/** The name of the snapshot file: the server address as text, with its dots deleted,
    followed by the `.xml` extension (`m_address.ToString().Replace(".", "") + ".xml"`). */
module FileNaming {

  /** `s` with every `.` deleted (`String.Replace(".", "")`). */
  function RemoveDots(s: string): (r: string)
    ensures '.' !in r
    ensures '.' !in s ==> r == s
    decreases |s|
  {
    if s == [] then [] else (if s[0] == '.' then [] else [s[0]]) + RemoveDots(s[1..])
  }

  /** Exactly the dots go: the result is shorter than `s` by the number of dots in `s`. */
  lemma {:induction false} RemoveDotsLength(s: string)
    ensures |RemoveDots(s)| == |s| - multiset(s)['.']
    decreases |s|
  {
    if s != [] {
      assert s == [s[0]] + s[1..];
      assert multiset(s) == multiset([s[0]]) + multiset(s[1..]);
      RemoveDotsLength(s[1..]);
    }
  }

  /** Deleting the dots of a concatenation deletes them from each part: with the contract of
      `RemoveDots`, this says the characters that are not dots are kept, in order. */
  lemma {:induction false} RemoveDotsAppend(a: string, b: string)
    ensures RemoveDots(a + b) == RemoveDots(a) + RemoveDots(b)
    decreases |a|
  {
    if a == [] {
      assert a + b == b;
    } else {
      assert (a + b)[0] == a[0] && (a + b)[1..] == a[1..] + b;
      RemoveDotsAppend(a[1..], b);
    }
  }

  /** The snapshot's file name: the address text without its dots, then `.xml`. */
  function FileName(addressText: string): (r: string)
    ensures |r| >= 4 && r[|r| - 4..] == ".xml"
    ensures '.' !in r[..|r| - 4]
  {
    var stem := RemoveDots(addressText);
    assert (stem + ".xml")[..|stem|] == stem;
    stem + ".xml"
  }

  /** The file name is as long as the address minus its dots plus four, and its only dot is the
      extension's. */
  lemma {:induction false} FileNameLength(addressText: string)
    ensures |FileName(addressText)| == |addressText| - multiset(addressText)['.'] + 4
    ensures multiset(FileName(addressText))['.'] == 1
  {
    var stem, ext := RemoveDots(addressText), ".xml";
    RemoveDotsLength(addressText);
    assert multiset(ext)['.'] == 1 by {
      assert ext == ['.'] + "xml";
      assert multiset(ext) == multiset{'.'} + multiset("xml");
    }
    assert multiset(stem + ext) == multiset(stem) + multiset(ext);
    assert multiset(stem)['.'] == 0;
  }

  /** Two addresses give the same file name exactly when they agree once their dots are deleted. */
  lemma FileNameCollides(a: string, b: string)
    ensures FileName(a) == FileName(b) <==> RemoveDots(a) == RemoveDots(b)
  {
  }

  /** Deleting the dots of `a`, a dot, then `b`: the dot goes, `a` and `b` keep what they have. */
  lemma {:induction false} RemoveDotsAround(a: string, b: string)
    ensures RemoveDots(a + "." + b) == RemoveDots(a) + RemoveDots(b)
  {
    var dot: string := ".";
    assert dot[1..] == [];
    assert RemoveDots(dot) == [];
    RemoveDotsAppend(a + dot, b);
    RemoveDotsAppend(a, dot);
  }

  /** The dots of a dotted quad `a.b.c.d` go and its four parts stay, run together. */
  lemma {:induction false} StemOfQuad(a: string, b: string, c: string, d: string)
    requires '.' !in a && '.' !in b && '.' !in c && '.' !in d
    ensures RemoveDots(a + "." + b + "." + c + "." + d) == a + b + c + d
  {
    RemoveDotsAround(a + "." + b + "." + c, d);
    RemoveDotsAround(a + "." + b, c);
    RemoveDotsAround(a, b);
  }

  /** The file name of a dotted quad `a.b.c.d` is its four parts run together, then `.xml`. */
  lemma {:induction false} FileNameOfQuad(a: string, b: string, c: string, d: string)
    requires '.' !in a && '.' !in b && '.' !in c && '.' !in d
    ensures FileName(a + "." + b + "." + c + "." + d) == a + b + c + d + ".xml"
  {
    StemOfQuad(a, b, c, d);
  }

  // The six lemmas below serve the one example `FileNameNotInjective`. They are split this
  // finely only to keep the solver cheap on concrete string literals.

  /** `10.0.0.11` is stored as `100011.xml`. */
  lemma FileNameOfFirstAddress()
    ensures FileName("10.0.0.11") == "100011.xml"
  {
    SplitFirstAddress();
    FileNameOfFirstQuad();
  }

  /** `10.0.0.11` as a dotted quad. */
  lemma SplitFirstAddress()
    ensures "10.0.0.11" == "10" + "." + "0" + "." + "0" + "." + "11"
  {
  }

  /** The file name of the quad `10`, `0`, `0`, `11`. */
  lemma FileNameOfFirstQuad()
    ensures FileName("10" + "." + "0" + "." + "0" + "." + "11") == "100011.xml"
  {
    FileNameOfQuad("10", "0", "0", "11");
  }

  /** `100.0.1.1` is stored as `100011.xml` too. */
  lemma FileNameOfSecondAddress()
    ensures FileName("100.0.1.1") == "100011.xml"
  {
    SplitSecondAddress();
    FileNameOfSecondQuad();
  }

  /** `100.0.1.1` as a dotted quad. */
  lemma SplitSecondAddress()
    ensures "100.0.1.1" == "100" + "." + "0" + "." + "1" + "." + "1"
  {
  }

  /** The file name of the quad `100`, `0`, `1`, `1`. */
  lemma FileNameOfSecondQuad()
    ensures FileName("100" + "." + "0" + "." + "1" + "." + "1") == "100011.xml"
  {
    FileNameOfQuad("100", "0", "1", "1");
  }

  /** The naming is not injective: two distinct IPv4 addresses share one file. */
  lemma FileNameNotInjective()
    ensures "10.0.0.11" != "100.0.1.1"
    ensures FileName("10.0.0.11") == FileName("100.0.1.1") == "100011.xml"
  {
    assert "10.0.0.11"[2] != "100.0.1.1"[2];
    FileNameOfFirstAddress();
    FileNameOfSecondAddress();
  }
}
