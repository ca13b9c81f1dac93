/**
 The persisted entities and the four repositories that hold them.

 References between entities (an order's customer, restaurant and products,
 a product's restaurant) are kept as ids, as the relational store keeps
 them. Strings the validators guarantee are present are plain strings;
 columns the services never check stay nullable.
 */
module Entities {
  import opened Common
  import opened StatusPedido
  import opened Tables

  datatype Cliente = Cliente(
    nome: string,
    email: string,
    telefone: Option<string>,
    endereco: Option<string>,
    ativo: bool,
    dataCadastro: Instant
  )

  /** `taxaEntrega` may be null: the restaurant validator lets a missing fee through. */
  datatype Restaurante = Restaurante(
    nome: string,
    categoria: string,
    endereco: Option<string>,
    taxaEntrega: Option<Money>,
    ativo: bool
  )

  datatype Produto = Produto(
    nome: string,
    descricao: string,
    preco: Money,
    categoria: string,
    disponivel: bool,
    restauranteId: Id
  )

  /** `itens` lists one product reference per unit ordered, repeats included. */
  datatype Pedido = Pedido(
    numeroPedido: Option<string>,
    dataPedido: Option<Instant>,
    status: StatusPedido,
    valorTotal: Money,
    observacoes: Option<string>,
    clienteId: Id,
    restauranteId: Id,
    itens: seq<Id>
  )

  datatype Store = Store(
    clientes: Repository<Cliente>,
    restaurantes: Repository<Restaurante>,
    produtos: Repository<Produto>,
    pedidos: Repository<Pedido>
  )
}
