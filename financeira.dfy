/**
 * The financial-health page (`financeira.ts`): the goal list (the copy of
 * `Goals` in which a click on the text toggles) and the 50/30/20 budget the
 * generate button builds from the monthly income. The income read with
 * `parseFloat` is `Option<real>`, `None` standing for `NaN`; amounts are exact
 * reals.
 */
module Financeira {
  import opened Wrappers
  import opened Goals

  const GoalsStorageKey: string := "financeiraGoals"
  const GoalVariant: Variant := TextToggles

  /** A click on the text does what the complete button does, save included. */
  lemma TextClickToggles(goals: seq<Goal>, goalId: Option<string>)
    ensures AfterAction(goals, goalId, ItemText, GoalVariant) == AfterAction(goals, goalId, CompleteButton, GoalVariant)
    ensures Saves(goals, goalId, ItemText, GoalVariant) == Saves(goals, goalId, CompleteButton, GoalVariant)
  {
  }

  /** A click that is neither a toggle nor a delete changes nothing and saves nothing. */
  lemma OtherClickIgnored(goals: seq<Goal>, goalId: Option<string>)
    ensures AfterAction(goals, goalId, Elsewhere, GoalVariant) == goals
    ensures !Saves(goals, goalId, Elsewhere, GoalVariant)
  {
  }

  // ---- Budget ----

  datatype Budget = Budget(income: real, needs: real, wants: real, savings: real)

  /**
   * The generate handler: an income that is not a number or not positive only
   * warns; any other income is split into needs, wants and savings.
   */
  function BudgetFor(income: Option<real>): (r: Option<Budget>)
    ensures r.None? <==> income.None? || income.value <= 0.0
    ensures r.Some? ==>
      && r.value.income == income.value
      && r.value.needs + r.value.wants + r.value.savings == r.value.income
      && 0.0 < r.value.savings < r.value.wants < r.value.needs
      && r.value.needs == r.value.wants + r.value.savings
  {
    if income.None? || income.value <= 0.0 then None
    else
      var renda := income.value;
      Some(Budget(renda, renda * 0.5, renda * 0.3, renda * 0.2))
  }

  datatype Line = Line(heading: string, amount: real)

  /**
   * The suggested items listed under the three headings, in page order: four
   * under needs, three under wants and two under savings, each group adding up
   * to its heading's amount.
   */
  function Lines(b: Budget): (r: seq<Line>)
    ensures |r| == 9
    ensures r[0].amount + r[1].amount + r[2].amount + r[3].amount == b.needs
    ensures r[4].amount + r[5].amount + r[6].amount == b.wants
    ensures r[7].amount + r[8].amount == b.savings
    ensures forall k :: 0 <= k < |r| ==> (b.needs >= 0.0 && b.wants >= 0.0 && b.savings >= 0.0 ==> r[k].amount >= 0.0)
  {
    [ Line("Moradia (Aluguel/Prestação)", b.needs * 0.5),
      Line("Contas (Água, Luz, Internet)", b.needs * 0.2),
      Line("Supermercado", b.needs * 0.25),
      Line("Transporte", b.needs * 0.05),
      Line("Lazer (Restaurantes, Cinema)", b.wants * 0.5),
      Line("Compras Pessoais", b.wants * 0.3),
      Line("Assinaturas (Streaming, etc.)", b.wants * 0.2),
      Line("Reserva de Emergência", b.savings * 0.5),
      Line("Investimentos (Longo Prazo)", b.savings * 0.5) ]
  }

  function Total(lines: seq<Line>): real {
    if lines == [] then 0.0 else lines[0].amount + Total(lines[1..])
  }

  /** The listed items of a generated budget add up to the whole income. */
  lemma {:induction false} LinesAddUpToIncome(income: real)
    requires income > 0.0
    ensures BudgetFor(Some(income)).Some?
    ensures Total(Lines(BudgetFor(Some(income)).value)) == income
  {
    var b := BudgetFor(Some(income)).value;
    var ls := Lines(b);
    assert Total(ls[9..]) == 0.0;
    assert Total(ls[8..]) == ls[8].amount + Total(ls[9..]);
    assert Total(ls[7..]) == ls[7].amount + Total(ls[8..]);
    assert Total(ls[6..]) == ls[6].amount + Total(ls[7..]);
    assert Total(ls[5..]) == ls[5].amount + Total(ls[6..]);
    assert Total(ls[4..]) == ls[4].amount + Total(ls[5..]);
    assert Total(ls[3..]) == ls[3].amount + Total(ls[4..]);
    assert Total(ls[2..]) == ls[2].amount + Total(ls[3..]);
    assert Total(ls[1..]) == ls[1].amount + Total(ls[2..]);
    assert Total(ls) == ls[0].amount + Total(ls[1..]);
  }
}
