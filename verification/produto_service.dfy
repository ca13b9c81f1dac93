/**
 `ProdutoService`: validation, registration, update, availability and
 removal of products. Every stored product carries a positive price, since
 both ways of writing a price go through the validator.
 */
module ProdutoService {
  import opened Common
  import opened JavaText
  import opened Tables
  import opened Entities

  /** `ProdutoDTO`, as the service reads it. */
  datatype ProdutoRequest = ProdutoRequest(
    nome: Option<string>,
    descricao: Option<string>,
    preco: Option<Money>,
    categoria: Option<string>,
    disponivel: bool,
    restauranteId: Option<Id>
  )

  /** What the validator demands: name, description and category with some
      visible character, and a price above zero. */
  predicate DadosValidos(dto: ProdutoRequest) {
    && InformadoNaoBranco(dto.nome)
    && InformadoNaoBranco(dto.descricao)
    && dto.preco.Some? && dto.preco.value > 0
    && InformadoNaoBranco(dto.categoria)
  }

  /** Every stored product has a positive price. */
  predicate PrecosPositivos(rows: map<Id, Produto>) {
    forall id :: id in rows ==> rows[id].preco > 0
  }

  /** `validarDadosProduto`: passes exactly the valid requests; a failure
      names the first failed check, in the order name, description, price,
      category. */
  function ValidarDadosProduto(dto: ProdutoRequest): (c: Check)
    ensures c.Pass? <==> DadosValidos(dto)
    ensures !InformadoNaoBranco(dto.nome) ==> c == Fail(NomeObrigatorio)
    ensures InformadoNaoBranco(dto.nome) && !InformadoNaoBranco(dto.descricao) ==> c == Fail(DescricaoObrigatoria)
    ensures (InformadoNaoBranco(dto.nome) && InformadoNaoBranco(dto.descricao)
             && (dto.preco.None? || dto.preco.value <= 0)) ==> c == Fail(PrecoNaoPositivo)
    ensures (InformadoNaoBranco(dto.nome) && InformadoNaoBranco(dto.descricao)
             && dto.preco.Some? && dto.preco.value > 0 && !InformadoNaoBranco(dto.categoria)) ==>
              c == Fail(CategoriaObrigatoria)
    ensures c.Fail? ==>
              c.error in {NomeObrigatorio, DescricaoObrigatoria, PrecoNaoPositivo, CategoriaObrigatoria}
  {
    if NuloOuBranco(dto.nome) then Fail(NomeObrigatorio)
    else if NuloOuBranco(dto.descricao) then Fail(DescricaoObrigatoria)
    else if dto.preco.None? || dto.preco.value <= 0 then Fail(PrecoNaoPositivo)
    else if NuloOuBranco(dto.categoria) then Fail(CategoriaObrigatoria)
    else Pass
  }

  /** `cadastrarProduto`: the restaurant lookup comes before validation; the
      new product is available, belongs to the given restaurant and goes
      under a fresh id; positive prices are preserved. */
  function CadastrarProduto(ps: Repository<Produto>, rs: Repository<Restaurante>, dto: ProdutoRequest)
    : (r: Result<(Repository<Produto>, Id)>)
    ensures dto.restauranteId.None? ==> r == Err(IdNulo)
    ensures dto.restauranteId.Some? && dto.restauranteId.value !in rs.rows ==>
              r == Err(RestauranteNaoEncontrado(dto.restauranteId.value))
    ensures dto.restauranteId.Some? && dto.restauranteId.value in rs.rows && !DadosValidos(dto) ==>
              r.Err? && r.error == ValidarDadosProduto(dto).error
    ensures r.Ok? <==> dto.restauranteId.Some? && dto.restauranteId.value in rs.rows && DadosValidos(dto)
    ensures r.Ok? ==>
              var (ps', id) := r.value;
              && id !in ps.rows
              && id in ps'.rows
              && ps'.rows == ps.rows[id := ps'.rows[id]]
              && Some(ps'.rows[id].nome) == dto.nome
              && Some(ps'.rows[id].descricao) == dto.descricao
              && Some(ps'.rows[id].preco) == dto.preco
              && Some(ps'.rows[id].categoria) == dto.categoria
              && ps'.rows[id].disponivel
              && Some(ps'.rows[id].restauranteId) == dto.restauranteId
    ensures r.Ok? && PrecosPositivos(ps.rows) ==> PrecosPositivos(r.value.0.rows)
  {
    match dto.restauranteId
    case None => Err(IdNulo)
    case Some(rid) =>
      if rid !in rs.rows then Err(RestauranteNaoEncontrado(rid))
      else
        match ValidarDadosProduto(dto)
        case Fail(e) => Err(e)
        case Pass =>
          var p := Produto(dto.nome.value, dto.descricao.value, dto.preco.value,
                           dto.categoria.value, true, rid);
          Ok(Insert(ps, p))
  }

  /** The restaurant a product ends up with after an update: the requested
      one when it is given, the current one otherwise. */
  function RestauranteFinal(atual: Id, solicitado: Option<Id>): Id {
    if solicitado.Some? then solicitado.value else atual
  }

  /** `atualizarProduto`: a missing product fails first, then validation;
      the restaurant changes only when the request names a different one,
      which must exist, or the whole update fails. On success every field
      but the id comes from the request (the restaurant as above) and no
      other row changes; positive prices are preserved. */
  function AtualizarProduto(ps: Repository<Produto>, rs: Repository<Restaurante>, id: Id, dto: ProdutoRequest)
    : (r: Result<Repository<Produto>>)
    ensures id !in ps.rows ==> r == Err(ProdutoNaoEncontrado(id))
    ensures id in ps.rows && !DadosValidos(dto) ==> r.Err? && r.error == ValidarDadosProduto(dto).error
    ensures (id in ps.rows && DadosValidos(dto) && dto.restauranteId.Some?
             && dto.restauranteId.value != ps.rows[id].restauranteId
             && dto.restauranteId.value !in rs.rows) ==>
              r == Err(RestauranteNaoEncontrado(dto.restauranteId.value))
    ensures r.Ok? <==>
              && id in ps.rows
              && DadosValidos(dto)
              && (dto.restauranteId.Some? && dto.restauranteId.value != ps.rows[id].restauranteId ==>
                    dto.restauranteId.value in rs.rows)
    ensures r.Ok? ==>
              && r.value.rows.Keys == ps.rows.Keys
              && r.value.nextId == ps.nextId
              && (forall k :: k in ps.rows && k != id ==> r.value.rows[k] == ps.rows[k])
              && Some(r.value.rows[id].nome) == dto.nome
              && Some(r.value.rows[id].descricao) == dto.descricao
              && Some(r.value.rows[id].preco) == dto.preco
              && Some(r.value.rows[id].categoria) == dto.categoria
              && r.value.rows[id].disponivel == dto.disponivel
              && (dto.restauranteId.None? ==> r.value.rows[id].restauranteId == ps.rows[id].restauranteId)
              && (dto.restauranteId.Some? ==> r.value.rows[id].restauranteId == dto.restauranteId.value)
              && (r.value.rows[id].restauranteId != ps.rows[id].restauranteId ==>
                    r.value.rows[id].restauranteId in rs.rows)
    ensures r.Ok? && PrecosPositivos(ps.rows) ==> PrecosPositivos(r.value.rows)
  {
    if id !in ps.rows then Err(ProdutoNaoEncontrado(id))
    else
      match ValidarDadosProduto(dto)
      case Fail(e) => Err(e)
      case Pass =>
        var atual := ps.rows[id];
        if dto.restauranteId.Some? && dto.restauranteId.value != atual.restauranteId
           && dto.restauranteId.value !in rs.rows
        then Err(RestauranteNaoEncontrado(dto.restauranteId.value))
        else
          var p := Produto(dto.nome.value, dto.descricao.value, dto.preco.value, dto.categoria.value,
                           dto.disponivel, RestauranteFinal(atual.restauranteId, dto.restauranteId));
          Ok(Put(ps, id, p))
  }

  /** `alterarDisponibilidade`: only the availability flag changes. */
  function AlterarDisponibilidade(ps: Repository<Produto>, id: Id, disponivel: bool)
    : (r: Result<Repository<Produto>>)
    ensures r.Err? <==> id !in ps.rows
    ensures r.Err? ==> r.error == ProdutoNaoEncontrado(id)
    ensures r.Ok? ==>
              && r.value.rows.Keys == ps.rows.Keys
              && r.value.nextId == ps.nextId
              && (forall k :: k in ps.rows && k != id ==> r.value.rows[k] == ps.rows[k])
              && r.value.rows[id] == ps.rows[id].(disponivel := disponivel)
    ensures r.Ok? && PrecosPositivos(ps.rows) ==> PrecosPositivos(r.value.rows)
  {
    if id !in ps.rows then Err(ProdutoNaoEncontrado(id))
    else Ok(Put(ps, id, ps.rows[id].(disponivel := disponivel)))
  }

  /** Setting the same availability twice is the same as setting it once. */
  lemma AlterarDisponibilidadeIdempotente(ps: Repository<Produto>, id: Id, disponivel: bool)
    requires AlterarDisponibilidade(ps, id, disponivel).Ok?
    ensures AlterarDisponibilidade(AlterarDisponibilidade(ps, id, disponivel).value, id, disponivel)
            == AlterarDisponibilidade(ps, id, disponivel)
  {
    var once := AlterarDisponibilidade(ps, id, disponivel).value;
    assert once.rows[id].(disponivel := disponivel) == once.rows[id];
    assert once.rows[id := once.rows[id]] == once.rows;
  }

  /** `buscarProdutoPorId`: an available stored product is returned as it
      is; a missing one and an unavailable one fail. */
  function BuscarProdutoPorId(ps: Repository<Produto>, id: Id): (r: Result<Produto>)
    ensures id !in ps.rows ==> r == Err(ProdutoNaoEncontrado(id))
    ensures id in ps.rows && !ps.rows[id].disponivel ==> r == Err(ProdutoInativo(id))
    ensures r.Ok? <==> id in ps.rows && ps.rows[id].disponivel
    ensures r.Ok? ==> r.value == ps.rows[id]
  {
    if id !in ps.rows then Err(ProdutoNaoEncontrado(id))
    else if !ps.rows[id].disponivel then Err(ProdutoInativo(id))
    else Ok(ps.rows[id])
  }

  /** A product just registered is found by its new id, available and with
      the request's fields. */
  lemma BuscarProdutoCadastrado(ps: Repository<Produto>, rs: Repository<Restaurante>, dto: ProdutoRequest)
    requires CadastrarProduto(ps, rs, dto).Ok?
    ensures var (ps', id) := CadastrarProduto(ps, rs, dto).value;
            && BuscarProdutoPorId(ps', id).Ok?
            && Some(BuscarProdutoPorId(ps', id).value.nome) == dto.nome
            && Some(BuscarProdutoPorId(ps', id).value.preco) == dto.preco
            && Some(BuscarProdutoPorId(ps', id).value.restauranteId) == dto.restauranteId
  {
  }

  /** Switching a product's availability off makes the lookup refuse it, and
      switching it back on makes the lookup return it again. */
  lemma BuscarAposAlterarDisponibilidade(ps: Repository<Produto>, id: Id)
    requires id in ps.rows
    ensures BuscarProdutoPorId(AlterarDisponibilidade(ps, id, false).value, id) == Err(ProdutoInativo(id))
    ensures BuscarProdutoPorId(AlterarDisponibilidade(ps, id, true).value, id)
            == Ok(ps.rows[id].(disponivel := true))
  {
  }

  /** `excluir`: removes exactly that product. */
  function Excluir(ps: Repository<Produto>, id: Id): (r: Result<Repository<Produto>>)
    ensures r.Err? <==> id !in ps.rows
    ensures r.Err? ==> r.error == ProdutoNaoEncontrado(id)
    ensures r.Ok? ==>
              && r.value.rows.Keys == ps.rows.Keys - {id}
              && (forall k :: k in r.value.rows ==> r.value.rows[k] == ps.rows[k])
    ensures r.Ok? && PrecosPositivos(ps.rows) ==> PrecosPositivos(r.value.rows)
  {
    if id !in ps.rows then Err(ProdutoNaoEncontrado(id))
    else Ok(Delete(ps, id))
  }
}
