/**
 `ClienteService`: validation, registration, update and activation of
 customers. The store keeps customer e-mails unique: registration refuses
 an e-mail already stored, and an update refuses a changed e-mail that
 another customer already has.
 */
module ClienteService {
  import opened Common
  import opened JavaText
  import opened Tables
  import opened Entities

  /** `ClienteResquetDTO`. */
  datatype ClienteRequest = ClienteRequest(
    nome: Option<string>,
    email: Option<string>,
    telefone: Option<string>,
    endereco: Option<string>
  )

  /** What the validator demands: a name and an e-mail that survive `trim()`,
      and a name of at least two UTF-16 code units before trimming. */
  predicate DadosValidos(dto: ClienteRequest) {
    && InformadoAposTrim(dto.nome)
    && InformadoAposTrim(dto.email)
    && JavaLength(dto.nome.value) >= 2
  }

  /** `existsByEmail(email)`. */
  predicate EmailEmUso(cs: Repository<Cliente>, email: string) {
    exists id :: id in cs.rows && cs.rows[id].email == email
  }

  /** No two stored customers share an e-mail. */
  predicate EmailsUnicos(rows: map<Id, Cliente>) {
    forall a, b :: a in rows && b in rows && rows[a].email == rows[b].email ==> a == b
  }

  /** `validarDadosCliente`: passes exactly the valid requests; a failure
      names the first failed check, in the order name, e-mail, name length.
      The length is taken before trimming, so padding counts towards it. */
  function ValidarDadosCliente(dto: ClienteRequest): (c: Check)
    ensures c.Pass? <==> DadosValidos(dto)
    ensures !InformadoAposTrim(dto.nome) ==> c == Fail(NomeObrigatorio)
    ensures InformadoAposTrim(dto.nome) && !InformadoAposTrim(dto.email) ==> c == Fail(EmailObrigatorio)
    ensures (InformadoAposTrim(dto.nome) && InformadoAposTrim(dto.email)
             && |dto.nome.value| + |Suplementares(dto.nome.value)| < 2) ==> c == Fail(NomeCurto)
    ensures c.Fail? ==> c.error in {NomeObrigatorio, EmailObrigatorio, NomeCurto}
  {
    if NuloOuVazioAposTrim(dto.nome) then Fail(NomeObrigatorio)
    else if NuloOuVazioAposTrim(dto.email) then Fail(EmailObrigatorio)
    else if JavaLength(dto.nome.value) < 2 then Fail(NomeCurto)
    else Pass
  }

  /** One visible letter preceded by a space passes the length check, and so
      does a single character outside the Basic Multilingual Plane. */
  lemma ComprimentoAntesDoTrim()
    ensures ValidarDadosCliente(ClienteRequest(Some(" A"), Some("a@b"), None, None)) == Pass
    ensures ValidarDadosCliente(ClienteRequest(Some("A"), Some("a@b"), None, None)) == Fail(NomeCurto)
    ensures ValidarDadosCliente(ClienteRequest(Some("\U{1F600}"), Some("a@b"), None, None)) == Pass
  {
    assert !Aparavel('A');
    assert !Aparavel('a');
    assert !Aparavel('\U{1F600}');
    assert JavaLength(" A") == 2 by {
      assert " A"[..1] == " ";
      assert " "[..0] == [];
    }
    assert JavaLength("\U{1F600}") == 2 by {
      assert "\U{1F600}"[..0] == [];
    }
  }

  /** `cadastrar`: validation comes before the e-mail check; a new customer
      is active, stamped with the registration time and stored under a
      fresh id; uniqueness of e-mails is preserved. */
  function Cadastrar(cs: Repository<Cliente>, dto: ClienteRequest, agora: Instant)
    : (r: Result<(Repository<Cliente>, Id)>)
    ensures !DadosValidos(dto) ==> r.Err? && r.error == ValidarDadosCliente(dto).error
    ensures DadosValidos(dto) && EmailEmUso(cs, dto.email.value) ==> r == Err(EmailJaCadastrado)
    ensures r.Ok? <==> DadosValidos(dto) && !EmailEmUso(cs, dto.email.value)
    ensures r.Ok? ==>
              var (cs', id) := r.value;
              && id !in cs.rows
              && id in cs'.rows
              && cs'.rows == cs.rows[id := cs'.rows[id]]
              && Some(cs'.rows[id].nome) == dto.nome
              && Some(cs'.rows[id].email) == dto.email
              && cs'.rows[id].telefone == dto.telefone
              && cs'.rows[id].endereco == dto.endereco
              && cs'.rows[id].ativo
              && cs'.rows[id].dataCadastro == agora
    ensures r.Ok? && EmailsUnicos(cs.rows) ==> EmailsUnicos(r.value.0.rows)
  {
    match ValidarDadosCliente(dto)
    case Fail(e) => Err(e)
    case Pass =>
      if EmailEmUso(cs, dto.email.value) then Err(EmailJaCadastrado)
      else
        var c := Cliente(dto.nome.value, dto.email.value, dto.telefone, dto.endereco, true, agora);
        Ok(Insert(cs, c))
  }

  /** `atualizar`: validation comes first, then the lookup, then the e-mail
      check, which only applies to an e-mail that differs from the current
      one. On success name, e-mail, phone and address are replaced,
      `ativo` and `dataCadastro` are kept, no other row changes, and
      uniqueness of e-mails is preserved. */
  function Atualizar(cs: Repository<Cliente>, id: Id, dto: ClienteRequest)
    : (r: Result<Repository<Cliente>>)
    ensures !DadosValidos(dto) ==> r.Err? && r.error == ValidarDadosCliente(dto).error
    ensures DadosValidos(dto) && id !in cs.rows ==> r == Err(ClienteNaoEncontrado(id))
    ensures (DadosValidos(dto) && id in cs.rows && cs.rows[id].email != dto.email.value
             && EmailEmUso(cs, dto.email.value)) ==>
              r == Err(EmailJaCadastrado)
    ensures r.Ok? <==>
              && DadosValidos(dto)
              && id in cs.rows
              && (cs.rows[id].email == dto.email.value || !EmailEmUso(cs, dto.email.value))
    ensures r.Ok? ==>
              && r.value.rows.Keys == cs.rows.Keys
              && r.value.nextId == cs.nextId
              && (forall k :: k in cs.rows && k != id ==> r.value.rows[k] == cs.rows[k])
              && Some(r.value.rows[id].nome) == dto.nome
              && Some(r.value.rows[id].email) == dto.email
              && r.value.rows[id].telefone == dto.telefone
              && r.value.rows[id].endereco == dto.endereco
              && r.value.rows[id].ativo == cs.rows[id].ativo
              && r.value.rows[id].dataCadastro == cs.rows[id].dataCadastro
    ensures r.Ok? && EmailsUnicos(cs.rows) ==> EmailsUnicos(r.value.rows)
  {
    match ValidarDadosCliente(dto)
    case Fail(e) => Err(e)
    case Pass =>
      if id !in cs.rows then Err(ClienteNaoEncontrado(id))
      else
        var atual := cs.rows[id];
        if atual.email != dto.email.value && EmailEmUso(cs, dto.email.value) then Err(EmailJaCadastrado)
        else
          var c := atual.(nome := dto.nome.value, email := dto.email.value,
                          telefone := dto.telefone, endereco := dto.endereco);
          Ok(Put(cs, id, c))
  }

  /** `alterarStatus`: sets `ativo` and changes nothing else. */
  function AlterarStatus(cs: Repository<Cliente>, id: Id, ativo: bool): (r: Result<Repository<Cliente>>)
    ensures r.Err? <==> id !in cs.rows
    ensures r.Err? ==> r.error == ClienteNaoEncontrado(id)
    ensures r.Ok? ==>
              && r.value.rows.Keys == cs.rows.Keys
              && r.value.nextId == cs.nextId
              && (forall k :: k in cs.rows && k != id ==> r.value.rows[k] == cs.rows[k])
              && r.value.rows[id] == cs.rows[id].(ativo := ativo)
    ensures r.Ok? && EmailsUnicos(cs.rows) ==> EmailsUnicos(r.value.rows)
  {
    if id !in cs.rows then Err(ClienteNaoEncontrado(id))
    else Ok(Put(cs, id, cs.rows[id].(ativo := ativo)))
  }

  /** `inativar`: the soft delete, which sets `ativo` to false and changes
      nothing else. */
  function Inativar(cs: Repository<Cliente>, id: Id): (r: Result<Repository<Cliente>>)
    ensures r.Err? <==> id !in cs.rows
    ensures r.Err? ==> r.error == ClienteNaoEncontrado(id)
    ensures r.Ok? ==>
              && r.value.rows.Keys == cs.rows.Keys
              && r.value.nextId == cs.nextId
              && (forall k :: k in cs.rows && k != id ==> r.value.rows[k] == cs.rows[k])
              && r.value.rows[id] == cs.rows[id].(ativo := false)
    ensures r.Ok? && EmailsUnicos(cs.rows) ==> EmailsUnicos(r.value.rows)
  {
    if id !in cs.rows then Err(ClienteNaoEncontrado(id))
    else Ok(Put(cs, id, cs.rows[id].(ativo := false)))
  }

  /** Deactivating is `alterarStatus` with `false`, and doing it twice is the
      same as doing it once. */
  lemma InativarIdempotente(cs: Repository<Cliente>, id: Id)
    ensures Inativar(cs, id) == AlterarStatus(cs, id, false)
    ensures Inativar(cs, id).Ok? ==> Inativar(Inativar(cs, id).value, id) == Inativar(cs, id)
  {
    if id in cs.rows {
      var once := Inativar(cs, id).value;
      assert once.rows[id].(ativo := false) == once.rows[id];
      assert once.rows[id := once.rows[id]] == once.rows;
    }
  }
}
