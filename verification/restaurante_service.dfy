/**
 `RestauranteService`: validation, registration, update, deactivation and
 deletion of restaurants, and the postal-code based delivery fee.

 The store keeps restaurant names unique: registration refuses a name that
 is already stored, and an update refuses a new name that another
 restaurant already has.
 */
module RestauranteService {
  import opened Common
  import opened JavaText
  import opened Tables
  import opened Entities

  /** `RestauranteRequestDTO`. */
  datatype RestauranteRequest = RestauranteRequest(
    nome: Option<string>,
    categoria: Option<string>,
    endereco: Option<string>,
    taxaEntrega: Option<Money>
  )

  /** What the validator demands: a name and a category, and a fee that is
      either absent or not negative. */
  predicate DadosValidos(dto: RestauranteRequest) {
    && InformadoAposTrim(dto.nome)
    && InformadoAposTrim(dto.categoria)
    && (dto.taxaEntrega.Some? ==> dto.taxaEntrega.value >= 0)
  }

  /** `findByNome(nome).isPresent()`. */
  predicate NomeEmUso(rs: Repository<Restaurante>, nome: Option<string>) {
    exists id :: id in rs.rows && Some(rs.rows[id].nome) == nome
  }

  /** No two stored restaurants share a name. */
  predicate NomesUnicos(rows: map<Id, Restaurante>) {
    forall a, b :: a in rows && b in rows && rows[a].nome == rows[b].nome ==> a == b
  }

  /** `validarDadosRestaurante`: passes exactly the valid requests, and a
      failure names the first check that failed, in the order name,
      category, fee. */
  function ValidarDadosRestaurante(dto: RestauranteRequest): (c: Check)
    ensures c.Pass? <==> DadosValidos(dto)
    ensures !InformadoAposTrim(dto.nome) ==> c == Fail(NomeObrigatorio)
    ensures InformadoAposTrim(dto.nome) && !InformadoAposTrim(dto.categoria) ==> c == Fail(CategoriaObrigatoria)
    ensures InformadoAposTrim(dto.nome) && InformadoAposTrim(dto.categoria) && !DadosValidos(dto) ==>
              c == Fail(TaxaEntregaNegativa)
    ensures c.Fail? ==> c.error in {NomeObrigatorio, CategoriaObrigatoria, TaxaEntregaNegativa}
  {
    if NuloOuVazioAposTrim(dto.nome) then Fail(NomeObrigatorio)
    else if NuloOuVazioAposTrim(dto.categoria) then Fail(CategoriaObrigatoria)
    else if dto.taxaEntrega.Some? && dto.taxaEntrega.value < 0 then Fail(TaxaEntregaNegativa)
    else Pass
  }

  /** The row a request turns into; `ativo` is decided by the caller. */
  function ComoRestaurante(dto: RestauranteRequest, ativo: bool): Restaurante
    requires DadosValidos(dto)
  {
    Restaurante(dto.nome.value, dto.categoria.value, dto.endereco, dto.taxaEntrega, ativo)
  }

  /** `cadastrar`: the duplicate-name check comes before validation; a new
      restaurant is active and goes under a fresh id; uniqueness of names
      is preserved. */
  function Cadastrar(rs: Repository<Restaurante>, dto: RestauranteRequest)
    : (r: Result<(Repository<Restaurante>, Id)>)
    ensures NomeEmUso(rs, dto.nome) ==> r == Err(RestauranteJaCadastrado)
    ensures !NomeEmUso(rs, dto.nome) && !DadosValidos(dto) ==>
              r.Err? && r.error == ValidarDadosRestaurante(dto).error
    ensures r.Ok? <==> !NomeEmUso(rs, dto.nome) && DadosValidos(dto)
    ensures r.Ok? ==>
              var (rs', id) := r.value;
              && id !in rs.rows
              && id in rs'.rows
              && rs'.rows == rs.rows[id := rs'.rows[id]]
              && Some(rs'.rows[id].nome) == dto.nome
              && Some(rs'.rows[id].categoria) == dto.categoria
              && rs'.rows[id].endereco == dto.endereco
              && rs'.rows[id].taxaEntrega == dto.taxaEntrega
              && rs'.rows[id].ativo
    ensures r.Ok? && NomesUnicos(rs.rows) ==> NomesUnicos(r.value.0.rows)
  {
    if NomeEmUso(rs, dto.nome) then Err(RestauranteJaCadastrado)
    else
      match ValidarDadosRestaurante(dto)
      case Fail(e) => Err(e)
      case Pass => Ok(Insert(rs, ComoRestaurante(dto, true)))
  }

  /** `atualizar`: a missing id fails first; a name that differs from the
      current one and is already stored fails next; then validation. On
      success the name, category, address and fee are replaced, `ativo` is
      kept, no other row changes, and uniqueness of names is preserved. */
  function Atualizar(rs: Repository<Restaurante>, id: Id, dto: RestauranteRequest)
    : (r: Result<Repository<Restaurante>>)
    ensures id !in rs.rows ==> r == Err(RestauranteNaoEncontrado(id))
    ensures id in rs.rows && Some(rs.rows[id].nome) != dto.nome && NomeEmUso(rs, dto.nome) ==>
              r == Err(NomeJaCadastrado)
    ensures id in rs.rows && (Some(rs.rows[id].nome) == dto.nome || !NomeEmUso(rs, dto.nome))
            && !DadosValidos(dto) ==>
              r.Err? && r.error == ValidarDadosRestaurante(dto).error
    ensures r.Ok? <==>
              && id in rs.rows
              && (Some(rs.rows[id].nome) == dto.nome || !NomeEmUso(rs, dto.nome))
              && DadosValidos(dto)
    ensures r.Ok? ==>
              && r.value.rows.Keys == rs.rows.Keys
              && r.value.nextId == rs.nextId
              && (forall k :: k in rs.rows && k != id ==> r.value.rows[k] == rs.rows[k])
              && Some(r.value.rows[id].nome) == dto.nome
              && Some(r.value.rows[id].categoria) == dto.categoria
              && r.value.rows[id].endereco == dto.endereco
              && r.value.rows[id].taxaEntrega == dto.taxaEntrega
              && r.value.rows[id].ativo == rs.rows[id].ativo
    ensures r.Ok? && NomesUnicos(rs.rows) ==> NomesUnicos(r.value.rows)
  {
    if id !in rs.rows then Err(RestauranteNaoEncontrado(id))
    else
      var atual := rs.rows[id];
      if Some(atual.nome) != dto.nome && NomeEmUso(rs, dto.nome) then Err(NomeJaCadastrado)
      else
        match ValidarDadosRestaurante(dto)
        case Fail(e) => Err(e)
        case Pass => Ok(Put(rs, id, ComoRestaurante(dto, atual.ativo)))
  }

  /** `inativar`: the restaurant becomes inactive and nothing else changes. */
  function Inativar(rs: Repository<Restaurante>, id: Id): (r: Result<Repository<Restaurante>>)
    ensures r.Err? <==> id !in rs.rows
    ensures r.Err? ==> r.error == RestauranteNaoEncontrado(id)
    ensures r.Ok? ==>
              && r.value.rows.Keys == rs.rows.Keys
              && r.value.nextId == rs.nextId
              && (forall k :: k in rs.rows && k != id ==> r.value.rows[k] == rs.rows[k])
              && r.value.rows[id] == rs.rows[id].(ativo := false)
    ensures r.Ok? && NomesUnicos(rs.rows) ==> NomesUnicos(r.value.rows)
  {
    if id !in rs.rows then Err(RestauranteNaoEncontrado(id))
    else Ok(Put(rs, id, rs.rows[id].(ativo := false)))
  }

  /** Deactivating twice is the same as deactivating once. */
  lemma InativarIdempotente(rs: Repository<Restaurante>, id: Id)
    requires Inativar(rs, id).Ok?
    ensures Inativar(Inativar(rs, id).value, id) == Inativar(rs, id)
  {
    var once := Inativar(rs, id).value;
    assert once.rows[id].(ativo := false) == once.rows[id];
    assert once.rows[id := once.rows[id]] == once.rows;
  }

  /** `deletar`: removes exactly that restaurant. */
  function Deletar(rs: Repository<Restaurante>, id: Id): (r: Result<Repository<Restaurante>>)
    ensures r.Err? <==> id !in rs.rows
    ensures r.Err? ==> r.error == RestauranteNaoEncontrado(id)
    ensures r.Ok? ==>
              && r.value.rows.Keys == rs.rows.Keys - {id}
              && (forall k :: k in r.value.rows ==> r.value.rows[k] == rs.rows[k])
    ensures r.Ok? && NomesUnicos(rs.rows) ==> NomesUnicos(r.value.rows)
  {
    if id !in rs.rows then Err(RestauranteNaoEncontrado(id))
    else Ok(Delete(rs, id))
  }

  /** The surcharge added to the base fee, by postal-code prefix. */
  function Sobretaxa(cep: string): Money {
    if StartsWith(cep, "01") then 5 * Unidade
    else if StartsWith(cep, "02") then 8 * Unidade
    else 10 * Unidade
  }

  /** `calcularTaxaEntrega`: the stored base fee plus 5, 8 or 10 currency
      units, decided by the first two characters of the postal code. A
      missing restaurant fails; a restaurant stored without a fee makes the
      addition throw. */
  function CalcularTaxaEntrega(rs: Repository<Restaurante>, id: Id, cep: string): (r: Result<Money>)
    ensures id !in rs.rows ==> r == Err(RestauranteNaoEncontrado(id))
    ensures id in rs.rows && rs.rows[id].taxaEntrega.None? ==> r == Err(NullPointer)
    ensures r.Ok? <==> id in rs.rows && rs.rows[id].taxaEntrega.Some?
    ensures r.Ok? ==>
              var base := rs.rows[id].taxaEntrega.value;
              && base + 5 * Unidade <= r.value <= base + 10 * Unidade
              && (|cep| >= 2 && cep[0] == '0' && cep[1] == '1' ==> r.value == base + 500)
              && (|cep| >= 2 && cep[0] == '0' && cep[1] == '2' ==> r.value == base + 800)
              && (|cep| < 2 || cep[0] != '0' || (cep[1] != '1' && cep[1] != '2') ==>
                    r.value == base + 1000)
  {
    if id !in rs.rows then Err(RestauranteNaoEncontrado(id))
    else
      match rs.rows[id].taxaEntrega
      case None => Err(NullPointer)
      case Some(base) => Ok(base + Sobretaxa(cep))
  }

  /** An empty postal code gets the largest surcharge. */
  lemma CepVazioPagaMaisCaro(rs: Repository<Restaurante>, id: Id)
    requires id in rs.rows && rs.rows[id].taxaEntrega.Some?
    ensures CalcularTaxaEntrega(rs, id, "") == Ok(rs.rows[id].taxaEntrega.value + 10 * Unidade)
  {
  }
}
