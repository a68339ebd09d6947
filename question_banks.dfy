/**
 * The question-banks page of a teacher: a list of banks held in page state,
 * searched by title and shrunk by confirmed deletes.
 */
module QuestionBanks {
  import Text
  import Lists
  import Search

  datatype QuestionBank = QuestionBank(
    id: string,
    title: string,
    subject: string,
    questions: int,
    difficulty: string,
    createdAt: string,
    lastUsed: string)

  function BankId(b: QuestionBank): string { b.id }
  function BankTitle(b: QuestionBank): string { b.title }

  /** The banks the page starts with. */
  const InitialBanks: seq<QuestionBank> := [
    QuestionBank("1", "Mathematics - Algebra", "Mathematics", 45, "Mixed", "2024-01-15", "2024-01-20"),
    QuestionBank("2", "Physics - Motion & Forces", "Physics", 32, "Intermediate", "2024-01-10", "2024-01-18"),
    QuestionBank("3", "English Literature", "English", 28, "Advanced", "2024-01-08", "2024-01-16")]

  class QuestionBanksPage {
    var banks: seq<QuestionBank>

    constructor ()
      ensures banks == InitialBanks
    {
      banks := InitialBanks;
    }

    /**
     * `filteredBanks`: the banks whose title contains the term, ignoring case,
     * in their order and each as often as in the list; it reads the list and
     * never changes it.  The "no banks" message shows when this is empty,
     * which is exactly when no title matches.
     */
    function Filtered(term: string): (r: seq<QuestionBank>)
      reads this
      ensures forall b :: b in r <==> b in banks && Text.MatchesTerm(b.title, term)
      ensures Lists.IsSubsequence(r, banks)
      ensures forall b :: b in banks ==>
        multiset(r)[b] == if Text.MatchesTerm(b.title, term) then multiset(banks)[b] else 0
      ensures r == [] <==> forall b :: b in banks ==> !Text.MatchesTerm(b.title, term)
      ensures term == "" ==> r == banks
    {
      Search.Matching(banks, BankTitle, term)
    }

    /**
     * `deleteQuestionBankById`: unconfirmed, nothing changes; confirmed, every
     * bank with the id goes and the others keep their order.
     */
    method DeleteById(id: string, confirmed: bool)
      modifies this
      ensures !confirmed ==> banks == old(banks)
      ensures confirmed ==> banks == Lists.WithoutKey(old(banks), BankId, id)
      ensures forall b :: b in banks <==> b in old(banks) && (confirmed ==> b.id != id)
      ensures Lists.IsSubsequence(banks, old(banks))
    {
      Lists.WithoutKeyProperties(banks, BankId, id);
      Lists.SubsequenceOfItself(banks);
      if confirmed {
        banks := Lists.WithoutKey(banks, BankId, id);
      }
    }
  }
}
