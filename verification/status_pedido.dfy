/**
 The order status enumeration and its fixed transition relation.

 An order moves forward through PENDENTE, CONFIRMADO, PREPARANDO,
 SAIU_PARA_ENTREGA and ENTREGUE; the first three may also go to CANCELADO.
 ENTREGUE and CANCELADO are terminal.
 */
module StatusPedido {

  datatype StatusPedido =
    | Pendente
    | Confirmado
    | Preparando
    | SaiuParaEntrega
    | Entregue
    | Cancelado

  /** The statuses from which no transition is allowed. */
  predicate Terminal(s: StatusPedido) {
    s == Entregue || s == Cancelado
  }

  /** Progress along the lifecycle: every allowed transition strictly increases it. */
  function Etapa(s: StatusPedido): (n: nat)
    ensures n <= 4
    ensures n == 4 <==> Terminal(s)
  {
    match s
    case Pendente => 0
    case Confirmado => 1
    case Preparando => 2
    case SaiuParaEntrega => 3
    case Entregue => 4
    case Cancelado => 4
  }

  /** The adjacency table: the set of statuses each status may move to. */
  function Destinos(s: StatusPedido): set<StatusPedido> {
    match s
    case Pendente => {Confirmado, Cancelado}
    case Confirmado => {Preparando, Cancelado}
    case Preparando => {SaiuParaEntrega, Cancelado}
    case SaiuParaEntrega => {Entregue}
    case Entregue => {}
    case Cancelado => {}
  }

  /** `podeTransitarPara`: whether an order in status `atual` may move to `novo`. */
  function PodeTransitarPara(atual: StatusPedido, novo: StatusPedido): (ok: bool)
    ensures ok <==> novo in Destinos(atual)
    ensures ok ==> atual != novo
    ensures ok ==> Etapa(atual) < Etapa(novo)
    ensures Terminal(atual) ==> !ok
  {
    match atual
    case Pendente => novo == Confirmado || novo == Cancelado
    case Confirmado => novo == Preparando || novo == Cancelado
    case Preparando => novo == SaiuParaEntrega || novo == Cancelado
    case SaiuParaEntrega => novo == Entregue
    case Entregue => false
    case Cancelado => false
  }

  /** A chain of statuses in which every step is an allowed transition. */
  predicate Cadeia(c: seq<StatusPedido>) {
    forall i :: 0 <= i < |c| - 1 ==> PodeTransitarPara(c[i], c[i + 1])
  }

  /** ENTREGUE and CANCELADO accept no target status at all. */
  lemma TerminaisSemSaida(s: StatusPedido, t: StatusPedido)
    requires Terminal(s)
    ensures !PodeTransitarPara(s, t)
  {
  }

  /** From PENDENTE exactly CONFIRMADO and CANCELADO are allowed; from
      CONFIRMADO exactly PREPARANDO and CANCELADO. */
  lemma SaidasIniciais(t: StatusPedido)
    ensures PodeTransitarPara(Pendente, t) <==> t == Confirmado || t == Cancelado
    ensures PodeTransitarPara(Confirmado, t) <==> t == Preparando || t == Cancelado
  {
  }

  /** SAIU_PARA_ENTREGA can only move to ENTREGUE; in particular it cannot be cancelled. */
  lemma EmEntregaSoEntrega(t: StatusPedido)
    ensures PodeTransitarPara(SaiuParaEntrega, t) <==> t == Entregue
    ensures !PodeTransitarPara(SaiuParaEntrega, Cancelado)
  {
  }

  /** CANCELADO is reachable in one step exactly from PENDENTE, CONFIRMADO and PREPARANDO. */
  lemma CancelavelEmUmPasso(s: StatusPedido)
    ensures PodeTransitarPara(s, Cancelado) <==> s in {Pendente, Confirmado, Preparando}
  {
  }

  /** Along a chain the lifecycle stage grows by at least one per step. */
  lemma {:induction false} EtapaCresceNaCadeia(c: seq<StatusPedido>)
    requires |c| >= 1
    requires Cadeia(c)
    ensures Etapa(c[|c| - 1]) >= Etapa(c[0]) + |c| - 1
  {
    if |c| > 1 {
      var p := c[..|c| - 1];
      assert Cadeia(p) by {
        forall i | 0 <= i < |p| - 1
          ensures PodeTransitarPara(p[i], p[i + 1])
        {
          assert p[i] == c[i] && p[i + 1] == c[i + 1];
        }
      }
      EtapaCresceNaCadeia(p);
      assert PodeTransitarPara(c[|c| - 2], c[|c| - 1]);
    }
  }

  /** Every chain of allowed transitions has at most four steps, counted
      from its first status's stage. */
  lemma CadeiaLimitada(c: seq<StatusPedido>)
    requires |c| >= 1
    requires Cadeia(c)
    ensures |c| - 1 <= 4 - Etapa(c[0])
    ensures |c| <= 5
  {
    EtapaCresceNaCadeia(c);
  }

  /** The relation is acyclic: no chain of one or more steps returns to its start. */
  lemma SemCiclos(c: seq<StatusPedido>)
    requires |c| >= 2
    requires Cadeia(c)
    ensures c[0] != c[|c| - 1]
  {
    EtapaCresceNaCadeia(c);
  }

  /** The bound of four steps is reached by the normal delivery path. */
  lemma CaminhoCompleto()
    ensures Cadeia([Pendente, Confirmado, Preparando, SaiuParaEntrega, Entregue])
  {
  }
}
