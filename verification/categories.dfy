/**
 * The closed category enumeration of a budget transaction, its income/expense
 * split and its string-label encoding.
 */
module Categories {
  import opened Wrappers

  /** The seven labels, in declaration order; the last one keeps its spelling `Subsriptions`. */
  datatype Category =
    | Salary | Sales | SideHustle | Allowances
    | Entertainment | Groceries | Subsriptions

  /** The class a category belongs to. */
  datatype Class = Income | Expense

  /** Every category, in declaration order. */
  const AllCategories: seq<Category> :=
    [Salary, Sales, SideHustle, Allowances, Entertainment, Groceries, Subsriptions]

  /** The income array the repository filters against. */
  const IncomeCategories: seq<Category> := [Salary, Sales, SideHustle, Allowances]

  /** The expense array the repository filters against. */
  const ExpenseCategories: seq<Category> := [Entertainment, Groceries, Subsriptions]

  /** Membership test the repository applies for a requested class. */
  predicate InClass(c: Category, k: Class)
  {
    if k == Income then c in IncomeCategories else c in ExpenseCategories
  }

  /** The class of a category, read off its place in the enumeration. */
  function ClassOf(c: Category): (k: Class)
    ensures k == Income <==> c in IncomeCategories
    ensures k == Expense <==> c in ExpenseCategories
  {
    match c
    case Salary | Sales | SideHustle | Allowances => Income
    case Entertainment | Groceries | Subsriptions => Expense
  }

  /** The enumeration has exactly seven distinct members and lists all of them. */
  lemma SevenCategories()
    ensures |AllCategories| == 7
    ensures forall i, j :: 0 <= i < j < |AllCategories| ==> AllCategories[i] != AllCategories[j]
    ensures forall c: Category :: c in AllCategories
    ensures AllCategories == IncomeCategories + ExpenseCategories
  {
    forall c: Category ensures c in AllCategories {
      match c
      case Salary => assert AllCategories[0] == c;
      case Sales => assert AllCategories[1] == c;
      case SideHustle => assert AllCategories[2] == c;
      case Allowances => assert AllCategories[3] == c;
      case Entertainment => assert AllCategories[4] == c;
      case Groceries => assert AllCategories[5] == c;
      case Subsriptions => assert AllCategories[6] == c;
    }
  }

  /** Every category is in exactly one of the two arrays, and that array is its class. */
  lemma ClassesPartitionCategories(c: Category)
    ensures (c in IncomeCategories) != (c in ExpenseCategories)
    ensures InClass(c, ClassOf(c))
    ensures !InClass(c, if ClassOf(c) == Income then Expense else Income)
  {
  }

  /**
   * The text a category is written as: its declared name, a word of ASCII
   * letters starting with a capital, with no spaces.
   */
  function Label(c: Category): (r: string)
    ensures |r| > 0 && 'A' <= r[0] <= 'Z'
    ensures forall i :: 0 <= i < |r| ==> 'A' <= r[i] <= 'Z' || 'a' <= r[i] <= 'z'
  {
    match c
    case Salary => "Salary"
    case Sales => "Sales"
    case SideHustle => "SideHustle"
    case Allowances => "Allowances"
    case Entertainment => "Entertainment"
    case Groceries => "Groceries"
    case Subsriptions => "Subsriptions"
  }

  /** The first category of `cs` whose label is `s`. */
  function ParseAmong(s: string, cs: seq<Category>): (r: Option<Category>)
    ensures r.Some? ==> r.value in cs && Label(r.value) == s
    ensures r.None? ==> forall c :: c in cs ==> Label(c) != s
  {
    if |cs| == 0 then None
    else if Label(cs[0]) == s then Some(cs[0])
    else ParseAmong(s, cs[1..])
  }

  /**
   * Reads a category back from its label; any other text is rejected.
   * label -> category -> label is the identity on every text that parses.
   */
  function Parse(s: string): (r: Option<Category>)
    ensures r.Some? ==> Label(r.value) == s
    ensures r.None? <==> forall c: Category :: Label(c) != s
  {
    SevenCategories();
    ParseAmong(s, AllCategories)
  }

  /** Two categories never share a label. */
  lemma LabelInjective(c: Category, d: Category)
    ensures Label(c) == Label(d) ==> c == d
  {
  }

  /** category -> label -> category is the identity. */
  lemma ParseLabel(c: Category)
    ensures Parse(Label(c)) == Some(c)
  {
    var r := Parse(Label(c));
    LabelInjective(c, r.value);
  }

  /** The enum member is spelled `Subsriptions`; the correctly spelled word is not a label. */
  lemma SubscriptionsSpelling()
    ensures Parse("Subsriptions") == Some(Subsriptions)
    ensures Parse("Subscriptions") == None
  {
    ParseLabel(Subsriptions);
    var word := "Subscriptions";
    assert |word| == 13 && word[0] == 'S';
    forall c: Category ensures Label(c) != word {
      if c == Entertainment {
        assert Label(c)[0] != word[0];
      } else {
        assert |Label(c)| != |word|;
      }
    }
  }
}
