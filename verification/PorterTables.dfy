/**
 * The suffix tables of the Porter stemmer, in the order the generated code
 * lists them, and the proof that each is well-formed for backward searches.
 */
module PorterTables {
  import opened Bytes
  import opened AmongTables
  import opened BackwardTables

  function Step1aEntry(i: int): Among {
    if i == 0 then Among("s", -1, 3, None) else
    if i == 1 then Among("ies", 0, 2, None) else
    if i == 2 then Among("sses", 0, 1, None) else
    Among("ss", 0, -1, None)
  }

  function Step1bTidyEntry(i: int): Among {
    if i == 0 then Among("", -1, 3, None) else
    if i == 1 then Among("bb", 0, 2, None) else
    if i == 2 then Among("dd", 0, 2, None) else
    if i == 3 then Among("ff", 0, 2, None) else
    if i == 4 then Among("gg", 0, 2, None) else
    if i == 5 then Among("bl", 0, 1, None) else
    if i == 6 then Among("mm", 0, 2, None) else
    if i == 7 then Among("nn", 0, 2, None) else
    if i == 8 then Among("pp", 0, 2, None) else
    if i == 9 then Among("rr", 0, 2, None) else
    if i == 10 then Among("at", 0, 1, None) else
    if i == 11 then Among("tt", 0, 2, None) else
    Among("iz", 0, 1, None)
  }

  function Step1bEntry(i: int): Among {
    if i == 0 then Among("ed", -1, 2, None) else
    if i == 1 then Among("eed", 0, 1, None) else
    Among("ing", -1, 2, None)
  }

  function Step2Entry(i: int): Among {
    if i == 0 then Among("anci", -1, 3, None) else
    if i == 1 then Among("enci", -1, 2, None) else
    if i == 2 then Among("abli", -1, 4, None) else
    if i == 3 then Among("eli", -1, 6, None) else
    if i == 4 then Among("alli", -1, 9, None) else
    if i == 5 then Among("ousli", -1, 12, None) else
    if i == 6 then Among("entli", -1, 5, None) else
    if i == 7 then Among("aliti", -1, 10, None) else
    if i == 8 then Among("biliti", -1, 14, None) else
    if i == 9 then Among("iviti", -1, 13, None) else
    if i == 10 then Among("tional", -1, 1, None) else
    if i == 11 then Among("ational", 10, 8, None) else
    if i == 12 then Among("alism", -1, 10, None) else
    if i == 13 then Among("ation", -1, 8, None) else
    if i == 14 then Among("ization", 13, 7, None) else
    if i == 15 then Among("izer", -1, 7, None) else
    if i == 16 then Among("ator", -1, 8, None) else
    if i == 17 then Among("iveness", -1, 13, None) else
    if i == 18 then Among("fulness", -1, 11, None) else
    Among("ousness", -1, 12, None)
  }

  function Step3Entry(i: int): Among {
    if i == 0 then Among("icate", -1, 2, None) else
    if i == 1 then Among("ative", -1, 3, None) else
    if i == 2 then Among("alize", -1, 1, None) else
    if i == 3 then Among("iciti", -1, 2, None) else
    if i == 4 then Among("ical", -1, 2, None) else
    if i == 5 then Among("ful", -1, 3, None) else
    Among("ness", -1, 3, None)
  }

  function Step4Entry(i: int): Among {
    if i == 0 then Among("ic", -1, 1, None) else
    if i == 1 then Among("ance", -1, 1, None) else
    if i == 2 then Among("ence", -1, 1, None) else
    if i == 3 then Among("able", -1, 1, None) else
    if i == 4 then Among("ible", -1, 1, None) else
    if i == 5 then Among("ate", -1, 1, None) else
    if i == 6 then Among("ive", -1, 1, None) else
    if i == 7 then Among("ize", -1, 1, None) else
    if i == 8 then Among("iti", -1, 1, None) else
    if i == 9 then Among("al", -1, 1, None) else
    if i == 10 then Among("ism", -1, 1, None) else
    if i == 11 then Among("ion", -1, 2, None) else
    if i == 12 then Among("er", -1, 1, None) else
    if i == 13 then Among("ous", -1, 1, None) else
    if i == 14 then Among("ant", -1, 1, None) else
    if i == 15 then Among("ent", -1, 1, None) else
    if i == 16 then Among("ment", 15, 1, None) else
    if i == 17 then Among("ement", 16, 1, None) else
    Among("ou", -1, 1, None)
  }

  lemma Step1aEntries(i: int)
    requires 1 <= i < 4
    ensures EntryOk(Step1aEntry, i)
  {
    if i == 1 {
    } else if i == 2 {
      assert ChainB(Step1aEntry, 0, "sses") == 0;
    } else if i == 3 {
      assert ChainB(Step1aEntry, 0, "ss") == 0;
    }
  }

  lemma Step1aTableOk()
    ensures TableOk(Step1aEntry, 4)
  {
    forall i | 1 <= i < 4 ensures EntryOk(Step1aEntry, i) {
      Step1aEntries(i);
    }
    forall i | 0 <= i < 4 ensures Step1aEntry(i).condition.None? { }
  }

  lemma Step1bTidyEntries1(i: int)
    requires 1 <= i < 5
    ensures EntryOk(Step1bTidyEntry, i)
  {
    if i == 1 {
    } else if i == 2 {
      assert ChainB(Step1bTidyEntry, 0, "dd") == 0;
    } else if i == 3 {
      assert ChainB(Step1bTidyEntry, 0, "ff") == 0;
    } else if i == 4 {
      assert ChainB(Step1bTidyEntry, 0, "gg") == 0;
    }
  }

  lemma Step1bTidyEntries2(i: int)
    requires 5 <= i < 9
    ensures EntryOk(Step1bTidyEntry, i)
  {
    if i == 5 {
      assert ChainB(Step1bTidyEntry, 0, "bl") == 0;
    } else if i == 6 {
      assert ChainB(Step1bTidyEntry, 0, "mm") == 0;
    } else if i == 7 {
      assert ChainB(Step1bTidyEntry, 0, "nn") == 0;
    } else if i == 8 {
      assert ChainB(Step1bTidyEntry, 0, "pp") == 0;
    }
  }

  lemma Step1bTidyEntries3(i: int)
    requires 9 <= i < 13
    ensures EntryOk(Step1bTidyEntry, i)
  {
    if i == 9 {
      assert ChainB(Step1bTidyEntry, 0, "rr") == 0;
    } else if i == 10 {
      assert ChainB(Step1bTidyEntry, 0, "at") == 0;
    } else if i == 11 {
      assert ChainB(Step1bTidyEntry, 0, "tt") == 0;
    } else if i == 12 {
      assert ChainB(Step1bTidyEntry, 0, "iz") == 0;
    }
  }

  lemma Step1bTidyTableOk()
    ensures TableOk(Step1bTidyEntry, 13)
  {
    forall i | 1 <= i < 13 ensures EntryOk(Step1bTidyEntry, i) {
      if i < 5 {
        Step1bTidyEntries1(i);
      } else if i < 9 {
        Step1bTidyEntries2(i);
      } else {
        Step1bTidyEntries3(i);
      }
    }
    forall i | 0 <= i < 13 ensures Step1bTidyEntry(i).condition.None? { }
  }

  lemma Step1bEntries(i: int)
    requires 1 <= i < 3
    ensures EntryOk(Step1bEntry, i)
  {
    if i == 1 {
    } else if i == 2 {
      assert ChainB(Step1bEntry, 0, "ing") == -1;
    }
  }

  lemma Step1bTableOk()
    ensures TableOk(Step1bEntry, 3)
  {
    forall i | 1 <= i < 3 ensures EntryOk(Step1bEntry, i) {
      Step1bEntries(i);
    }
    forall i | 0 <= i < 3 ensures Step1bEntry(i).condition.None? { }
  }

  lemma Step2Entries1(i: int)
    requires 1 <= i < 5
    ensures EntryOk(Step2Entry, i)
  {
    if i == 1 {
    } else if i == 2 {
    } else if i == 3 {
    } else if i == 4 {
    }
  }

  lemma Step2Entries2(i: int)
    requires 5 <= i < 9
    ensures EntryOk(Step2Entry, i)
  {
    if i == 5 {
    } else if i == 6 {
    } else if i == 7 {
    } else if i == 8 {
    }
  }

  lemma Step2Entries3(i: int)
    requires 9 <= i < 13
    ensures EntryOk(Step2Entry, i)
  {
    if i == 9 {
    } else if i == 10 {
    } else if i == 11 {
    } else if i == 12 {
      assert ChainB(Step2Entry, 10, "alism") == -1;
    }
  }

  lemma Step2Entries4(i: int)
    requires 13 <= i < 17
    ensures EntryOk(Step2Entry, i)
  {
    if i == 13 {
    } else if i == 14 {
    } else if i == 15 {
      assert ChainB(Step2Entry, 13, "izer") == -1;
    } else if i == 16 {
    }
  }

  lemma Step2Entries5(i: int)
    requires 17 <= i < 20
    ensures EntryOk(Step2Entry, i)
  {
    if i == 17 {
    } else if i == 18 {
    } else if i == 19 {
    }
  }

  lemma Step2TableOk()
    ensures TableOk(Step2Entry, 20)
  {
    forall i | 1 <= i < 20 ensures EntryOk(Step2Entry, i) {
      if i < 5 {
        Step2Entries1(i);
      } else if i < 9 {
        Step2Entries2(i);
      } else if i < 13 {
        Step2Entries3(i);
      } else if i < 17 {
        Step2Entries4(i);
      } else {
        Step2Entries5(i);
      }
    }
    forall i | 0 <= i < 20 ensures Step2Entry(i).condition.None? { }
  }

  lemma Step3Entries1(i: int)
    requires 1 <= i < 5
    ensures EntryOk(Step3Entry, i)
  {
    if i == 1 {
    } else if i == 2 {
    } else if i == 3 {
    } else if i == 4 {
    }
  }

  lemma Step3Entries2(i: int)
    requires 5 <= i < 7
    ensures EntryOk(Step3Entry, i)
  {
    if i == 5 {
    } else if i == 6 {
    }
  }

  lemma Step3TableOk()
    ensures TableOk(Step3Entry, 7)
  {
    forall i | 1 <= i < 7 ensures EntryOk(Step3Entry, i) {
      if i < 5 {
        Step3Entries1(i);
      } else {
        Step3Entries2(i);
      }
    }
    forall i | 0 <= i < 7 ensures Step3Entry(i).condition.None? { }
  }

  lemma Step4Entries1(i: int)
    requires 1 <= i < 5
    ensures EntryOk(Step4Entry, i)
  {
    if i == 1 {
    } else if i == 2 {
    } else if i == 3 {
    } else if i == 4 {
    }
  }

  lemma Step4Entries2(i: int)
    requires 5 <= i < 9
    ensures EntryOk(Step4Entry, i)
  {
    if i == 5 {
    } else if i == 6 {
    } else if i == 7 {
    } else if i == 8 {
    }
  }

  lemma Step4Entries3(i: int)
    requires 9 <= i < 13
    ensures EntryOk(Step4Entry, i)
  {
    if i == 9 {
    } else if i == 10 {
    } else if i == 11 {
    } else if i == 12 {
    }
  }

  lemma Step4Entries4(i: int)
    requires 13 <= i < 17
    ensures EntryOk(Step4Entry, i)
  {
    if i == 13 {
    } else if i == 14 {
    } else if i == 15 {
    } else if i == 16 {
    }
  }

  lemma Step4Entries5(i: int)
    requires 17 <= i < 19
    ensures EntryOk(Step4Entry, i)
  {
    if i == 17 {
      assert ChainB(Step4Entry, 15, "ement") == 15;
    } else if i == 18 {
      assert ChainB(Step4Entry, 15, "ou") == -1;
      assert ChainB(Step4Entry, 16, "ou") == -1;
    }
  }

  lemma Step4TableOk()
    ensures TableOk(Step4Entry, 19)
  {
    forall i | 1 <= i < 19 ensures EntryOk(Step4Entry, i) {
      if i < 5 {
        Step4Entries1(i);
      } else if i < 9 {
        Step4Entries2(i);
      } else if i < 13 {
        Step4Entries3(i);
      } else if i < 17 {
        Step4Entries4(i);
      } else {
        Step4Entries5(i);
      }
    }
    forall i | 0 <= i < 19 ensures Step4Entry(i).condition.None? { }
  }
}
