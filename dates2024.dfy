/** The order of the ISO dates of early 2024 that the worked examples use, one comparison per
    lemma. */
module Dates2024 {
  import opened Strings

  lemma Jan01BeforeJan02()
    ensures Less("2024-01-01", "2024-01-02")
  {
    LessAtFirstDifference("2024-01-01", "2024-01-02", 9);
  }

  lemma Jan01BeforeJan03()
    ensures Less("2024-01-01", "2024-01-03")
  {
    LessAtFirstDifference("2024-01-01", "2024-01-03", 9);
  }

  lemma Jan02BeforeJan03()
    ensures Less("2024-01-02", "2024-01-03")
  {
    LessAtFirstDifference("2024-01-02", "2024-01-03", 9);
  }

  lemma Jan03BeforeJan04()
    ensures Less("2024-01-03", "2024-01-04")
  {
    LessAtFirstDifference("2024-01-03", "2024-01-04", 9);
  }

  lemma Jan02BeforeJan04()
    ensures Less("2024-01-02", "2024-01-04")
  {
    LessAtFirstDifference("2024-01-02", "2024-01-04", 9);
  }

  lemma Jan02BeforeDec31()
    ensures Less("2024-01-02", "2024-12-31")
  {
    LessAtFirstDifference("2024-01-02", "2024-12-31", 5);
  }

  lemma Jan03BeforeDec31()
    ensures Less("2024-01-03", "2024-12-31")
  {
    LessAtFirstDifference("2024-01-03", "2024-12-31", 5);
  }
}
