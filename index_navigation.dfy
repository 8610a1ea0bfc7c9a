/**
 * The page shown first by `index.tsx`: the id in the URL fragment when it names
 * a known page, otherwise the home page.
 */
module IndexNavigation {

  /** The keys of `pageInitializers`, in their declared order. */
  const PageIds: seq<string> := [
    "fisica", "mental", "espiritual", "preventiva", "financeira", "familiar",
    "profissional", "social", "planejamento-diario", "tarefas", "inicio",
    "food-gengibre", "food-alho", "food-brocolis", "food-couveflor", "food-shitake",
    "food-lentilha", "food-azeite", "food-morango", "food-laranja", "food-maca",
    "food-cenoura", "food-pimenta", "food-ovo", "food-vinagremaca", "food-whey",
    "food-creatina", "food-curcuma", "food-chaverde", "food-canela", "food-linhaca",
    "alongamento", "leitura-guia-fisica", "leitura-guia-espiritual",
    "leitura-guia-familiar", "leitura-guia-mental", "leitura-guia-financeira"]

  const HomePage: string := "inicio"

  /** `hash.substring(1)`. */
  function DropFirst(hash: string): string {
    if |hash| >= 1 then hash[1..] else ""
  }

  /** Every page id is at least two characters long, and the home page is one of them. */
  lemma PageIdsShape()
    ensures forall k :: 0 <= k < |PageIds| ==> |PageIds[k]| > 1
    ensures HomePage in PageIds
  {
    assert PageIds[10] == HomePage;
  }

  function InitialPageId(hash: string): (id: string)
    ensures id in PageIds
    ensures DropFirst(hash) in PageIds ==> id == DropFirst(hash)
    ensures DropFirst(hash) !in PageIds ==> id == HomePage
  {
    PageIdsShape();
    var fromHash := DropFirst(hash);
    if fromHash != [] && fromHash in PageIds then fromHash else HomePage
  }

  /** An empty or bare fragment opens the home page; a known one opens its page. */
  lemma EmptyFragmentOpensHome()
    ensures InitialPageId("") == HomePage
    ensures InitialPageId("#") == HomePage
    ensures InitialPageId("#tarefas") == "tarefas"
  {
    assert DropFirst("#tarefas") == "tarefas" == PageIds[9];
  }
}
