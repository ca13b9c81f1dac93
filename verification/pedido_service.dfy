/**
 `PedidoService`: order creation, lookup, status change, cancellation and
 the fee-less price total.

 Order creation checks, in this order: the customer exists and is active;
 the restaurant exists and is active; the item list parses; each item, in
 list order, exists, is available and belongs to the restaurant. Only then
 is the total (item prices plus the restaurant's delivery fee) computed and
 a CONFIRMADO order stored. A failure at any step stores nothing.
 */
module PedidoService {
  import opened Common
  import opened StatusPedido
  import opened Tables
  import opened Entities
  import ProdutoService

  /** The `itens` text of the request after JSON parsing: a list of product
      ids, or text that does not parse as one. */
  datatype Itens = Ids(ids: seq<Id>) | Malformado

  /** `PedidoDTO`. */
  datatype PedidoRequest = PedidoRequest(
    clienteId: Id,
    restauranteId: Id,
    itens: Itens,
    dataPedido: Option<Instant>,
    numeroPedido: Option<string>,
    observacoes: Option<string>
  )

  // ---------------------------------------------------------------------
  // Item resolution

  /** An item id the order may contain: a stored, available product of the
      order's restaurant. */
  predicate ItemAceito(ps: Repository<Produto>, restauranteId: Id, id: Id) {
    id in ps.rows && ps.rows[id].disponivel && ps.rows[id].restauranteId == restauranteId
  }

  /** The error a refused item raises: not found before unavailable before
      belonging to another restaurant. */
  function Recusa(ps: Repository<Produto>, restauranteId: Id, id: Id): Error
    requires !ItemAceito(ps, restauranteId, id)
  {
    if id !in ps.rows then ProdutoNaoEncontrado(id)
    else if !ps.rows[id].disponivel then ProdutoIndisponivel(id)
    else ProdutoDeOutroRestaurante(id)
  }

  /** Position `k` holds the first refused item of `ids`. */
  predicate PrimeiroRecusado(ps: Repository<Produto>, restauranteId: Id, ids: seq<Id>, k: int) {
    && 0 <= k < |ids|
    && !ItemAceito(ps, restauranteId, ids[k])
    && forall j :: 0 <= j < k ==> ItemAceito(ps, restauranteId, ids[j])
  }

  /** Position `k` holds the first id of `ids` with no stored product. */
  predicate PrimeiroAusente(ps: Repository<Produto>, ids: seq<Id>, k: int) {
    && 0 <= k < |ids|
    && ids[k] !in ps.rows
    && forall j :: 0 <= j < k ==> ids[j] in ps.rows
  }

  /** Every id of the list has a stored product. */
  predicate TodosExistem(ps: Repository<Produto>, ids: seq<Id>) {
    forall i :: 0 <= i < |ids| ==> ids[i] in ps.rows
  }

  /** The stored products behind a list of ids, position by position. */
  function Produtos(ps: Repository<Produto>, ids: seq<Id>): (r: seq<Produto>)
    requires TodosExistem(ps, ids)
    ensures |r| == |ids|
    ensures forall i :: 0 <= i < |ids| ==> r[i] == ps.rows[ids[i]]
  {
    seq(|ids|, i requires 0 <= i < |ids| => ps.rows[ids[i]])
  }

  /** Every item of the list may be ordered from the restaurant. */
  predicate TodosAceitos(ps: Repository<Produto>, restauranteId: Id, ids: seq<Id>) {
    forall i :: 0 <= i < |ids| ==> ItemAceito(ps, restauranteId, ids[i])
  }

  /** Once the head of the list is accepted, acceptance and the first
      refused position are those of the tail, shifted by one. */
  lemma CabecaAceita(ps: Repository<Produto>, restauranteId: Id, ids: seq<Id>)
    requires |ids| > 0 && ItemAceito(ps, restauranteId, ids[0])
    ensures TodosAceitos(ps, restauranteId, ids) <==> TodosAceitos(ps, restauranteId, ids[1..])
    ensures forall k :: PrimeiroRecusado(ps, restauranteId, ids, k) ==>
              k >= 1 && PrimeiroRecusado(ps, restauranteId, ids[1..], k - 1)
    ensures TodosExistem(ps, ids[1..]) ==> Produtos(ps, ids) == [ps.rows[ids[0]]] + Produtos(ps, ids[1..])
  {
    forall k | PrimeiroRecusado(ps, restauranteId, ids, k)
      ensures k >= 1 && PrimeiroRecusado(ps, restauranteId, ids[1..], k - 1)
    {
      forall j | 0 <= j < k - 1 ensures ItemAceito(ps, restauranteId, ids[1..][j]) {
        assert ids[1..][j] == ids[j + 1];
      }
    }
    if TodosAceitos(ps, restauranteId, ids[1..]) {
      forall i | 0 <= i < |ids| ensures ItemAceito(ps, restauranteId, ids[i]) {
        if i > 0 { assert ids[i] == ids[1..][i - 1]; }
      }
    }
    CabecaExiste(ps, ids);
  }

  /** Once the head of the list is stored, existence and the first missing
      position are those of the tail, shifted by one. */
  lemma CabecaExiste(ps: Repository<Produto>, ids: seq<Id>)
    requires |ids| > 0 && ids[0] in ps.rows
    ensures TodosExistem(ps, ids) <==> TodosExistem(ps, ids[1..])
    ensures forall k :: PrimeiroAusente(ps, ids, k) ==> k >= 1 && PrimeiroAusente(ps, ids[1..], k - 1)
    ensures TodosExistem(ps, ids[1..]) ==> Produtos(ps, ids) == [ps.rows[ids[0]]] + Produtos(ps, ids[1..])
  {
    forall k | PrimeiroAusente(ps, ids, k) ensures k >= 1 && PrimeiroAusente(ps, ids[1..], k - 1) {
      forall j | 0 <= j < k - 1 ensures ids[1..][j] in ps.rows {
        assert ids[1..][j] == ids[j + 1];
      }
    }
    if TodosExistem(ps, ids[1..]) {
      forall i | 0 <= i < |ids| ensures ids[i] in ps.rows {
        if i > 0 { assert ids[i] == ids[1..][i - 1]; }
      }
      assert Produtos(ps, ids) == [ps.rows[ids[0]]] + Produtos(ps, ids[1..]);
    }
  }

  /** The items of `criarPedido`, looked up and checked one at a time in list
      order: either every item is accepted and the result lists their
      products in the same order and number, or the first refused item
      decides the error. */
  function ResolverItens(ps: Repository<Produto>, restauranteId: Id, ids: seq<Id>)
    : (r: Result<seq<Produto>>)
    ensures r.Ok? <==> TodosAceitos(ps, restauranteId, ids)
    ensures r.Ok? ==> TodosExistem(ps, ids) && r.value == Produtos(ps, ids)
    ensures forall k :: PrimeiroRecusado(ps, restauranteId, ids, k) ==>
              r == Err(Recusa(ps, restauranteId, ids[k]))
    decreases |ids|
  {
    if |ids| == 0 then Ok([])
    else
      var id := ids[0];
      if id !in ps.rows then Err(ProdutoNaoEncontrado(id))
      else if !ps.rows[id].disponivel then Err(ProdutoIndisponivel(id))
      else if ps.rows[id].restauranteId != restauranteId then Err(ProdutoDeOutroRestaurante(id))
      else
        CabecaAceita(ps, restauranteId, ids);
        match ResolverItens(ps, restauranteId, ids[1..])
        case Err(e) => Err(e)
        case Ok(produtos) => Ok([ps.rows[id]] + produtos)
  }

  /** The items of `calcularTotal`: only looked up, never checked for
      availability or restaurant. */
  function BuscarTodos(ps: Repository<Produto>, ids: seq<Id>): (r: Result<seq<Produto>>)
    ensures r.Ok? <==> TodosExistem(ps, ids)
    ensures r.Ok? ==> r.value == Produtos(ps, ids)
    ensures forall k :: PrimeiroAusente(ps, ids, k) ==> r == Err(ProdutoNaoEncontrado(ids[k]))
    decreases |ids|
  {
    if |ids| == 0 then Ok([])
    else if ids[0] !in ps.rows then Err(ProdutoNaoEncontrado(ids[0]))
    else
      CabecaExiste(ps, ids);
      match BuscarTodos(ps, ids[1..])
      case Err(e) => Err(e)
      case Ok(produtos) => Ok([ps.rows[ids[0]]] + produtos)
  }

  // ---------------------------------------------------------------------
  // Totals

  /** `stream().map(Produto::getPreco).reduce(BigDecimal.ZERO, BigDecimal::add)`:
      a left fold over the products. */
  function SomaPrecos(produtos: seq<Produto>): Money {
    if |produtos| == 0 then 0
    else SomaPrecos(produtos[..|produtos| - 1]) + produtos[|produtos| - 1].preco
  }

  /** The reference total of a list of ids: the price of the first item plus
      the total of the rest, each repeat counted again. */
  function ValorDosItens(ps: Repository<Produto>, ids: seq<Id>): Money
    requires TodosExistem(ps, ids)
    decreases |ids|
  {
    if |ids| == 0 then 0 else ps.rows[ids[0]].preco + ValorDosItens(ps, ids[1..])
  }

  /** Sums split over concatenation. */
  lemma {:induction false} SomaConcatenada(a: seq<Produto>, b: seq<Produto>)
    ensures SomaPrecos(a + b) == SomaPrecos(a) + SomaPrecos(b)
    decreases |b|
  {
    if |b| > 0 {
      var b' := b[..|b| - 1];
      assert (a + b)[..|a + b| - 1] == a + b';
      SomaConcatenada(a, b');
    } else {
      assert a + b == a;
    }
  }

  /** The fold `criarPedido` and `calcularTotal` compute is the reference total. */
  lemma {:induction false} SomaIgualValor(ps: Repository<Produto>, ids: seq<Id>)
    requires TodosExistem(ps, ids)
    ensures SomaPrecos(Produtos(ps, ids)) == ValorDosItens(ps, ids)
    decreases |ids|
  {
    if |ids| > 0 {
      var resto := ids[1..];
      assert TodosExistem(ps, resto) by {
        forall i | 0 <= i < |resto| ensures resto[i] in ps.rows {
          assert resto[i] == ids[i + 1];
        }
      }
      assert Produtos(ps, ids) == [ps.rows[ids[0]]] + Produtos(ps, resto);
      SomaConcatenada([ps.rows[ids[0]]], Produtos(ps, resto));
      assert SomaPrecos([ps.rows[ids[0]]]) == ps.rows[ids[0]].preco by {
        assert [ps.rows[ids[0]]][..0] == [];
      }
      SomaIgualValor(ps, resto);
    }
  }

  /** With positive prices, every item adds at least one cent. */
  lemma {:induction false} ValorAoMenosUmPorItem(ps: Repository<Produto>, ids: seq<Id>)
    requires TodosExistem(ps, ids)
    requires ProdutoService.PrecosPositivos(ps.rows)
    ensures ValorDosItens(ps, ids) >= |ids|
    decreases |ids|
  {
    if |ids| > 0 {
      var resto := ids[1..];
      assert TodosExistem(ps, resto) by {
        forall i | 0 <= i < |resto| ensures resto[i] in ps.rows {
          assert resto[i] == ids[i + 1];
        }
      }
      ValorAoMenosUmPorItem(ps, resto);
      var primeiro := ids[0];
      assert primeiro in ps.rows;
      assert ps.rows[primeiro].preco > 0;
    }
  }

  // ---------------------------------------------------------------------
  // Operations

  predicate ClienteAtivo(st: Store, id: Id) {
    id in st.clientes.rows && st.clientes.rows[id].ativo
  }

  predicate RestauranteAtivo(st: Store, id: Id) {
    id in st.restaurantes.rows && st.restaurantes.rows[id].ativo
  }

  /** The order's items are stored, available products of its restaurant. */
  predicate ItensDoRestaurante(ps: Repository<Produto>, p: Pedido) {
    TodosAceitos(ps, p.restauranteId, p.itens)
  }

  /** Everything `criarPedido` needs to succeed. */
  predicate PedidoAceito(st: Store, dto: PedidoRequest) {
    && ClienteAtivo(st, dto.clienteId)
    && RestauranteAtivo(st, dto.restauranteId)
    && dto.itens.Ids?
    && TodosAceitos(st.produtos, dto.restauranteId, dto.itens.ids)
    && st.restaurantes.rows[dto.restauranteId].taxaEntrega.Some?
  }

  /** `criarPedido`. Failures follow the order of the checks: customer,
      restaurant, item list format, then the first refused item; a
      restaurant stored without a fee makes the total's addition throw. On
      success only the order table changes, by one new row under a fresh
      id: a CONFIRMADO order of the given customer and restaurant, listing
      the requested items in order, whose total is the price of every item,
      repeats included, plus the delivery fee. */
  function CriarPedido(st: Store, dto: PedidoRequest): (r: Result<(Store, Id)>)
    ensures dto.clienteId !in st.clientes.rows ==> r == Err(ClienteNaoEncontrado(dto.clienteId))
    ensures dto.clienteId in st.clientes.rows && !st.clientes.rows[dto.clienteId].ativo ==>
              r == Err(ClienteInativo)
    ensures ClienteAtivo(st, dto.clienteId) && dto.restauranteId !in st.restaurantes.rows ==>
              r == Err(RestauranteNaoEncontrado(dto.restauranteId))
    ensures ClienteAtivo(st, dto.clienteId) && dto.restauranteId in st.restaurantes.rows
            && !st.restaurantes.rows[dto.restauranteId].ativo ==>
              r == Err(RestauranteIndisponivel)
    ensures ClienteAtivo(st, dto.clienteId) && RestauranteAtivo(st, dto.restauranteId)
            && dto.itens.Malformado? ==>
              r == Err(FormatoItensInvalido)
    ensures ClienteAtivo(st, dto.clienteId) && RestauranteAtivo(st, dto.restauranteId) && dto.itens.Ids? ==>
              forall k :: PrimeiroRecusado(st.produtos, dto.restauranteId, dto.itens.ids, k) ==>
                r == Err(Recusa(st.produtos, dto.restauranteId, dto.itens.ids[k]))
    ensures (ClienteAtivo(st, dto.clienteId) && RestauranteAtivo(st, dto.restauranteId) && dto.itens.Ids?
             && TodosAceitos(st.produtos, dto.restauranteId, dto.itens.ids)
             && st.restaurantes.rows[dto.restauranteId].taxaEntrega.None?) ==>
              r == Err(NullPointer)
    ensures r.Ok? <==> PedidoAceito(st, dto)
    ensures r.Ok? ==>
              var (st', id) := r.value;
              && st'.clientes == st.clientes
              && st'.restaurantes == st.restaurantes
              && st'.produtos == st.produtos
              && id !in st.pedidos.rows
              && id in st'.pedidos.rows
              && st'.pedidos.rows == st.pedidos.rows[id := st'.pedidos.rows[id]]
              && TodosExistem(st.produtos, dto.itens.ids)
              && var p := st'.pedidos.rows[id];
              && p.status == Confirmado
              && p.clienteId == dto.clienteId
              && p.restauranteId == dto.restauranteId
              && p.itens == dto.itens.ids
              && ItensDoRestaurante(st.produtos, p)
              && p.valorTotal == ValorDosItens(st.produtos, dto.itens.ids)
                                 + st.restaurantes.rows[dto.restauranteId].taxaEntrega.value
              && p.numeroPedido == dto.numeroPedido
              && p.dataPedido == dto.dataPedido
              && p.observacoes == dto.observacoes
  {
    if dto.clienteId !in st.clientes.rows then Err(ClienteNaoEncontrado(dto.clienteId))
    else if !st.clientes.rows[dto.clienteId].ativo then Err(ClienteInativo)
    else if dto.restauranteId !in st.restaurantes.rows then Err(RestauranteNaoEncontrado(dto.restauranteId))
    else
      var restaurante := st.restaurantes.rows[dto.restauranteId];
      if !restaurante.ativo then Err(RestauranteIndisponivel)
      else
        match dto.itens
        case Malformado => Err(FormatoItensInvalido)
        case Ids(ids) =>
          match ResolverItens(st.produtos, dto.restauranteId, ids)
          case Err(e) => Err(e)
          case Ok(produtos) =>
            match restaurante.taxaEntrega
            case None => Err(NullPointer)
            case Some(taxa) =>
              SomaIgualValor(st.produtos, ids);
              var pedido := Pedido(dto.numeroPedido, dto.dataPedido, Confirmado,
                                   SomaPrecos(produtos) + taxa, dto.observacoes,
                                   dto.clienteId, dto.restauranteId, ids);
              var (pedidos', id) := Insert(st.pedidos, pedido);
              Ok((st.(pedidos := pedidos'), id))
  }

  /** `buscarPorId`: the stored order, or not found. */
  function BuscarPorId(pedidos: Repository<Pedido>, id: Id): (r: Result<Pedido>)
    ensures r.Err? <==> id !in pedidos.rows
    ensures r.Err? ==> r.error == PedidoNaoEncontrado(id)
    ensures r.Ok? ==> r.value == pedidos.rows[id]
  {
    if id !in pedidos.rows then Err(PedidoNaoEncontrado(id)) else Ok(pedidos.rows[id])
  }

  /** Looking up a freshly created order finds it, CONFIRMADO and carrying
      the request's customer, restaurant and items; every order that was
      already stored is found exactly as before. */
  lemma BuscarPedidoCriado(st: Store, dto: PedidoRequest)
    requires CriarPedido(st, dto).Ok?
    ensures var (st', id) := CriarPedido(st, dto).value;
            && BuscarPorId(st'.pedidos, id).Ok?
            && BuscarPorId(st'.pedidos, id).value.status == Confirmado
            && BuscarPorId(st'.pedidos, id).value.clienteId == dto.clienteId
            && BuscarPorId(st'.pedidos, id).value.restauranteId == dto.restauranteId
            && BuscarPorId(st'.pedidos, id).value.itens == dto.itens.ids
            && (forall k :: k in st.pedidos.rows ==> BuscarPorId(st'.pedidos, k) == BuscarPorId(st.pedidos, k))
  {
  }

  /** `atualizarStatus`: succeeds exactly when the order exists and the new
      status is in the adjacency table of its current one; then only that
      order's status changes. */
  function AtualizarStatus(pedidos: Repository<Pedido>, id: Id, novo: StatusPedido)
    : (r: Result<Repository<Pedido>>)
    ensures id !in pedidos.rows ==> r == Err(PedidoNaoEncontrado(id))
    ensures id in pedidos.rows && novo !in Destinos(pedidos.rows[id].status) ==>
              r == Err(TransicaoNaoPermitida(pedidos.rows[id].status, novo))
    ensures r.Ok? <==> id in pedidos.rows && novo in Destinos(pedidos.rows[id].status)
    ensures r.Ok? ==>
              && r.value.rows.Keys == pedidos.rows.Keys
              && r.value.nextId == pedidos.nextId
              && (forall k :: k in pedidos.rows && k != id ==> r.value.rows[k] == pedidos.rows[k])
              && r.value.rows[id] == pedidos.rows[id].(status := novo)
  {
    if id !in pedidos.rows then Err(PedidoNaoEncontrado(id))
    else
      var atual := pedidos.rows[id].status;
      if !PodeTransitarPara(atual, novo) then Err(TransicaoNaoPermitida(atual, novo))
      else Ok(Put(pedidos, id, pedidos.rows[id].(status := novo)))
  }

  /** Successive `atualizarStatus` calls on one order, stopping at the first
      failure. */
  function AtualizarStatusEmSequencia(pedidos: Repository<Pedido>, id: Id, novos: seq<StatusPedido>)
    : Result<Repository<Pedido>>
    decreases |novos|
  {
    if |novos| == 0 then Ok(pedidos)
    else
      match AtualizarStatus(pedidos, id, novos[0])
      case Err(e) => Err(e)
      case Ok(p) => AtualizarStatusEmSequencia(p, id, novos[1..])
  }

  /** An order accepts at most four successful status updates in all, fewer
      the further along it already is, and ends in the last status asked for. */
  lemma {:induction false} AtualizacoesLimitadas(pedidos: Repository<Pedido>, id: Id, novos: seq<StatusPedido>)
    requires |novos| > 0
    requires AtualizarStatusEmSequencia(pedidos, id, novos).Ok?
    ensures id in pedidos.rows
    ensures |novos| <= 4 - Etapa(pedidos.rows[id].status)
    ensures id in AtualizarStatusEmSequencia(pedidos, id, novos).value.rows
    ensures AtualizarStatusEmSequencia(pedidos, id, novos).value.rows[id].status == novos[|novos| - 1]
    decreases |novos|
  {
    var p := AtualizarStatus(pedidos, id, novos[0]).value;
    if |novos| > 1 {
      AtualizacoesLimitadas(p, id, novos[1..]);
    }
  }

  /** The two transition scenarios: PREPARANDO cannot jump to ENTREGUE, but
      reaches it through SAIU_PARA_ENTREGA. */
  lemma CenariosDeTransicao(pedidos: Repository<Pedido>, id: Id)
    requires id in pedidos.rows && pedidos.rows[id].status == Preparando
    ensures AtualizarStatus(pedidos, id, Entregue) == Err(TransicaoNaoPermitida(Preparando, Entregue))
    ensures AtualizarStatusEmSequencia(pedidos, id, [SaiuParaEntrega, Entregue]).Ok?
  {
    var p := AtualizarStatus(pedidos, id, SaiuParaEntrega).value;
    assert p.rows[id].status == SaiuParaEntrega;
    assert [SaiuParaEntrega, Entregue][1..] == [Entregue];
  }

  /** `cancelarPedido`: deletes the order unless it was delivered. */
  function CancelarPedido(pedidos: Repository<Pedido>, id: Id): (r: Result<Repository<Pedido>>)
    ensures id !in pedidos.rows ==> r == Err(PedidoNaoEncontrado(id))
    ensures id in pedidos.rows && pedidos.rows[id].status == Entregue ==> r == Err(PedidoJaEntregue)
    ensures r.Ok? <==> id in pedidos.rows && pedidos.rows[id].status != Entregue
    ensures r.Ok? ==>
              && r.value.rows.Keys == pedidos.rows.Keys - {id}
              && (forall k :: k in r.value.rows ==> r.value.rows[k] == pedidos.rows[k])
  {
    if id !in pedidos.rows then Err(PedidoNaoEncontrado(id))
    else if pedidos.rows[id].status == Entregue then Err(PedidoJaEntregue)
    else Ok(Delete(pedidos, id))
  }

  /** Cancellation bypasses the state machine: an order already out for
      delivery, or already cancelled, is removed although the status
      relation allows neither of them to become CANCELADO. */
  lemma CancelamentoIgnoraTransicoes(pedidos: Repository<Pedido>, id: Id)
    requires id in pedidos.rows
    requires pedidos.rows[id].status in {SaiuParaEntrega, Cancelado}
    ensures CancelarPedido(pedidos, id).Ok?
    ensures AtualizarStatus(pedidos, id, Cancelado).Err?
  {
  }

  /** `calcularTotal`: the price of every item, without the delivery fee and
      without the availability or restaurant checks; it fails only on an
      unparseable list or, at the first such id, on a missing product. */
  function CalcularTotal(ps: Repository<Produto>, dto: PedidoRequest): (r: Result<Money>)
    ensures dto.itens.Malformado? ==> r == Err(FormatoItensInvalido)
    ensures dto.itens.Ids? ==>
              forall k :: PrimeiroAusente(ps, dto.itens.ids, k) ==> r == Err(ProdutoNaoEncontrado(dto.itens.ids[k]))
    ensures r.Ok? <==> dto.itens.Ids? && TodosExistem(ps, dto.itens.ids)
    ensures r.Ok? ==> r.value == ValorDosItens(ps, dto.itens.ids)
  {
    match dto.itens
    case Malformado => Err(FormatoItensInvalido)
    case Ids(ids) =>
      match BuscarTodos(ps, ids)
      case Err(e) => Err(e)
      case Ok(produtos) =>
        SomaIgualValor(ps, ids);
        Ok(SomaPrecos(produtos))
  }

  /** A created order's total is `calcularTotal` of the same request plus the
      restaurant's delivery fee. */
  lemma TotalDoPedido(st: Store, dto: PedidoRequest)
    requires CriarPedido(st, dto).Ok?
    ensures CalcularTotal(st.produtos, dto).Ok?
    ensures var (st', id) := CriarPedido(st, dto).value;
            st'.pedidos.rows[id].valorTotal
            == CalcularTotal(st.produtos, dto).value + st.restaurantes.rows[dto.restauranteId].taxaEntrega.value
  {
  }

  /** An order with no items costs exactly the delivery fee; with positive
      prices, each item adds at least one cent above it. */
  lemma TotalSobreATaxa(st: Store, dto: PedidoRequest)
    requires CriarPedido(st, dto).Ok?
    requires ProdutoService.PrecosPositivos(st.produtos.rows)
    ensures var (st', id) := CriarPedido(st, dto).value;
            var taxa := st.restaurantes.rows[dto.restauranteId].taxaEntrega.value;
            && (dto.itens.ids == [] ==> st'.pedidos.rows[id].valorTotal == taxa)
            && st'.pedidos.rows[id].valorTotal >= taxa + |dto.itens.ids|
  {
    ValorAoMenosUmPorItem(st.produtos, dto.itens.ids);
  }

  /** The store of the reference scenario: one active customer, one active
      restaurant with a 5.00 fee, and two of its products at 30.00 and 6.00. */
  const LojaExemplo: Store := Store(
    Table(map[1 := Cliente("C1", "c1@example.com", None, None, true, 0)], 2),
    Table(map[1 := Restaurante("R1", "Pizzaria", None, Some(500), true)], 2),
    Table(map[1 := Produto("P1", "Pizza", 3000, "Pizza", true, 1),
              5 := Produto("P5", "Refrigerante", 600, "Bebida", true, 1)], 6),
    Table(map[], 1))

  /** The customer orders both products from that restaurant. */
  const PedidoExemplo: PedidoRequest := PedidoRequest(1, 1, Ids([1, 5]), None, None, None)

  /** The reference scenario yields a CONFIRMADO order of 41.00. */
  lemma CenarioPedidoConfirmado()
    ensures
      var r := CriarPedido(LojaExemplo, PedidoExemplo);
      && r.Ok?
      && r.value.0.pedidos.rows[r.value.1].valorTotal == 4100
      && r.value.0.pedidos.rows[r.value.1].status == Confirmado
  {
    var st := LojaExemplo;
    var ps := st.produtos;
    assert ClienteAtivo(st, 1) && RestauranteAtivo(st, 1);
    assert TodosAceitos(ps, 1, [1, 5]) by {
      assert ItemAceito(ps, 1, 1) && ItemAceito(ps, 1, 5);
    }
    assert PedidoAceito(st, PedidoExemplo);
    assert ValorDosItens(ps, [1, 5]) == 3600 by {
      assert [1, 5][1..] == [5];
      assert [5][1..] == [];
    }
  }
}
